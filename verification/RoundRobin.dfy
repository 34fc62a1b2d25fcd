/** The order in which whole passes over a list of busy queues serve their commands. */
module RoundRobin {

  /** Each queue of the list has a number of waiting commands. */
  ghost predicate Listed(busy: seq<nat>, ns: seq<nat>) {
    && (forall i :: 0 <= i < |busy| ==> busy[i] < |ns|)
    && (forall i, j :: 0 <= i < j < |busy| ==> busy[i] != busy[j])
  }

  /** Queues served by pass r: those with more than r commands at the start, in list order. */
  ghost function Pass(busy: seq<nat>, ns: seq<nat>, r: nat): seq<nat>
    requires Listed(busy, ns)
  {
    if busy == [] then []
    else
      var q := busy[|busy| - 1];
      Pass(busy[..|busy| - 1], ns, r) + (if ns[q] > r then [q] else [])
  }

  /** Queues served by the first r passes, command by command. */
  ghost function Passes(busy: seq<nat>, ns: seq<nat>, r: nat): seq<nat>
    requires Listed(busy, ns)
  {
    if r == 0 then [] else Passes(busy, ns, r - 1) + Pass(busy, ns, r - 1)
  }

  function Min(a: nat, b: nat): nat {
    if a < b then a else b
  }

  /** Commands waiting in all queues of the list. */
  ghost function Total(busy: seq<nat>, ns: seq<nat>): nat
    requires Listed(busy, ns)
  {
    if busy == [] then 0 else Total(busy[..|busy| - 1], ns) + ns[busy[|busy| - 1]]
  }

  /** Every queue served to its end or r times, whichever comes first. */
  ghost function Served(busy: seq<nat>, ns: seq<nat>, r: nat): nat
    requires Listed(busy, ns)
  {
    if busy == [] then 0 else Served(busy[..|busy| - 1], ns, r) + Min(r, ns[busy[|busy| - 1]])
  }

  lemma {:induction false} PassLength(busy: seq<nat>, ns: seq<nat>, r: nat)
    requires Listed(busy, ns)
    ensures |Pass(busy, ns, r)| <= |busy|
    ensures Served(busy, ns, r) + |Pass(busy, ns, r)| == Served(busy, ns, r + 1)
  {
    if busy != [] {
      PassLength(busy[..|busy| - 1], ns, r);
    }
  }

  lemma {:induction false} NoneServed(busy: seq<nat>, ns: seq<nat>)
    requires Listed(busy, ns)
    ensures Served(busy, ns, 0) == 0
  {
    if busy != [] {
      NoneServed(busy[..|busy| - 1], ns);
    }
  }

  lemma PassesStep(busy: seq<nat>, ns: seq<nat>, r: nat)
    requires Listed(busy, ns)
    ensures |Passes(busy, ns, r + 1)| == |Passes(busy, ns, r)| + |Pass(busy, ns, r)|
  {
  }

  lemma {:induction false} PassesLength(busy: seq<nat>, ns: seq<nat>, r: nat)
    requires Listed(busy, ns)
    ensures |Passes(busy, ns, r)| == Served(busy, ns, r)
  {
    if r == 0 {
      NoneServed(busy, ns);
    } else {
      calc {
        |Passes(busy, ns, r)|;
        { PassesStep(busy, ns, r - 1); }
        |Passes(busy, ns, r - 1)| + |Pass(busy, ns, r - 1)|;
        { PassesLength(busy, ns, r - 1); }
        Served(busy, ns, r - 1) + |Pass(busy, ns, r - 1)|;
        { PassLength(busy, ns, r - 1); }
        Served(busy, ns, r);
      }
    }
  }

  /** A pass serves nobody exactly when every command has been served. */
  lemma {:induction false} PassEmpty(busy: seq<nat>, ns: seq<nat>, r: nat)
    requires Listed(busy, ns)
    ensures Served(busy, ns, r) <= Total(busy, ns)
    ensures Pass(busy, ns, r) == [] <==> Served(busy, ns, r) == Total(busy, ns)
  {
    if busy != [] {
      PassEmpty(busy[..|busy| - 1], ns, r);
    }
  }

  /** How often q occurs. */
  ghost function Times(xs: seq<nat>, q: nat): nat {
    if xs == [] then 0 else Times(xs[..|xs| - 1], q) + (if xs[|xs| - 1] == q then 1 else 0)
  }

  lemma TimesSnoc(xs: seq<nat>, x: nat, q: nat)
    ensures Times(xs + [x], q) == Times(xs, q) + (if x == q then 1 else 0)
    ensures xs + [] == xs
  {
    assert (xs + [x])[..|xs|] == xs;
  }

  lemma {:induction false} TimesAppend(a: seq<nat>, b: seq<nat>, q: nat)
    ensures Times(a + b, q) == Times(a, q) + Times(b, q)
  {
    if b == [] {
      assert a + b == a;
    } else {
      TimesAppend(a, b[..|b| - 1], q);
      assert (a + b)[..|a + b| - 1] == a + b[..|b| - 1];
    }
  }

  lemma {:induction false} PassMembers(busy: seq<nat>, ns: seq<nat>, r: nat, q: nat)
    requires Listed(busy, ns)
    ensures Times(Pass(busy, ns, r), q) == if q in busy && ns[q] > r then 1 else 0
  {
    if busy != [] {
      var n := |busy| - 1;
      PassMembers(busy[..n], ns, r, q);
      TimesSnoc(Pass(busy[..n], ns, r), busy[n], q);
      assert q in busy <==> q in busy[..n] || q == busy[n] by {
        assert busy == busy[..n] + [busy[n]];
      }
    }
  }

  /** What queue q is owed after r passes. */
  ghost function Share(busy: seq<nat>, ns: seq<nat>, r: nat, q: nat): nat
    requires Listed(busy, ns)
  {
    if q in busy then Min(r, ns[q]) else 0
  }

  lemma ShareStep(busy: seq<nat>, ns: seq<nat>, r: nat, q: nat)
    requires Listed(busy, ns)
    ensures Share(busy, ns, 0, q) == 0
    ensures Share(busy, ns, r + 1, q) == Share(busy, ns, r, q) + Times(Pass(busy, ns, r), q)
  {
    PassMembers(busy, ns, r, q);
  }

  /** Exact round robin: after r passes a busy queue has been served min(r, waiting) times. */
  lemma {:induction false} PassesMembers(busy: seq<nat>, ns: seq<nat>, r: nat, q: nat)
    requires Listed(busy, ns)
    ensures Times(Passes(busy, ns, r), q) == Share(busy, ns, r, q)
  {
    if r == 0 {
      ShareStep(busy, ns, 0, q);
    } else {
      PassesMembers(busy, ns, r - 1, q);
      ShareStep(busy, ns, r - 1, q);
      TimesAppend(Passes(busy, ns, r - 1), Pass(busy, ns, r - 1), q);
    }
  }

  // ---- One call of the dispatch loop ------------------------------------------------

  /** Turns on the admin queue. */
  ghost function Zeros(n: nat): seq<nat> {
    if n == 0 then [] else Zeros(n - 1) + [0]
  }

  lemma {:induction false} ZerosTimes(n: nat, q: nat)
    ensures |Zeros(n)| == n && Times(Zeros(n), q) == if q == 0 then n else 0
  {
    if n > 0 {
      var zeros := Zeros(n - 1);
      ZerosTimes(n - 1, q);
      TimesSnoc(zeros, 0, q);
      assert Zeros(n) == zeros + [0];
    }
  }

  /** IO queues with a command waiting, among the first n queues. */
  ghost function BusyIds(ns: seq<nat>, n: nat): seq<nat>
    requires n <= |ns|
  {
    if n == 0 then [] else BusyIds(ns, n - 1) + (if n > 1 && ns[n - 1] > 0 then [n - 1] else [])
  }

  lemma {:induction false} BusyIdsExact(ns: seq<nat>, n: nat)
    requires n <= |ns|
    ensures Listed(BusyIds(ns, n), ns)
    ensures forall q :: q in BusyIds(ns, n) <==> 1 <= q < n && ns[q] > 0
  {
    if n > 0 {
      BusyIdsExact(ns, n - 1);
    }
  }

  /** The schedule after a turns on the admin queue, r passes, and pass r over the first i
      busy queues. */
  ghost function Schedule(busy: seq<nat>, ns: seq<nat>, a: nat, r: nat, i: nat): seq<nat>
    requires Listed(busy, ns) && i <= |busy|
  {
    Zeros(a) + Passes(busy, ns, r) + Pass(busy[..i], ns, r)
  }

  lemma ScheduleTimes(busy: seq<nat>, ns: seq<nat>, a: nat, r: nat, i: nat, q: nat)
    requires Listed(busy, ns) && i <= |busy|
    ensures Times(Schedule(busy, ns, a, r, i), q) ==
            (if q == 0 then a else 0) + Share(busy, ns, r, q) + (if q in busy[..i] && ns[q] > r then 1 else 0)
  {
    ZerosTimes(a, q);
    PassesMembers(busy, ns, r, q);
    PassMembers(busy[..i], ns, r, q);
    TimesAppend(Zeros(a) + Passes(busy, ns, r), Pass(busy[..i], ns, r), q);
    TimesAppend(Zeros(a), Passes(busy, ns, r), q);
  }

  lemma PassStep(busy: seq<nat>, ns: seq<nat>, r: nat, i: nat)
    requires Listed(busy, ns) && i < |busy|
    ensures Pass(busy[..i + 1], ns, r) == Pass(busy[..i], ns, r) + (if ns[busy[i]] > r then [busy[i]] else [])
  {
    assert busy[..i + 1][..i] == busy[..i];
  }

  lemma ScheduleStep(busy: seq<nat>, ns: seq<nat>, a: nat, r: nat, i: nat)
    requires Listed(busy, ns) && i < |busy|
    ensures Schedule(busy, ns, a, r, i + 1) == Schedule(busy, ns, a, r, i) + (if ns[busy[i]] > r then [busy[i]] else [])
  {
    assert busy[..i + 1][..i] == busy[..i];
  }

  lemma ScheduleNext(busy: seq<nat>, ns: seq<nat>, a: nat, r: nat)
    requires Listed(busy, ns)
    ensures Schedule(busy, ns, a, r, |busy|) == Schedule(busy, ns, a, r + 1, 0)
  {
    assert busy[..|busy|] == busy && busy[..0] == [];
  }

  /** No schedule serves a queue more often than it has commands waiting. */
  lemma ScheduleBound(busy: seq<nat>, ns: seq<nat>, a: nat, r: nat, i: nat, q: nat)
    requires Listed(busy, ns) && i <= |busy| && q < |ns| && 0 !in busy && (q == 0 ==> a <= ns[0])
    ensures Times(Schedule(busy, ns, a, r, i), q) <= ns[q]
    ensures i < |busy| && busy[i] == q ==> (Times(Schedule(busy, ns, a, r, i), q) < ns[q] <==> r < ns[q])
  {
    ScheduleTimes(busy, ns, a, r, i, q);
    assert q in busy[..i] ==> q in busy;
  }

  lemma {:induction false} PassBelow(busy: seq<nat>, ns: seq<nat>, r: nat)
    requires Listed(busy, ns)
    ensures forall k :: 0 <= k < |Pass(busy, ns, r)| ==> Pass(busy, ns, r)[k] < |ns|
  {
    if busy != [] {
      PassBelow(busy[..|busy| - 1], ns, r);
    }
  }

  lemma {:induction false} PassesBelow(busy: seq<nat>, ns: seq<nat>, r: nat)
    requires Listed(busy, ns)
    ensures forall k :: 0 <= k < |Passes(busy, ns, r)| ==> Passes(busy, ns, r)[k] < |ns|
  {
    if r > 0 {
      PassesBelow(busy, ns, r - 1);
      PassBelow(busy, ns, r - 1);
    }
  }

  lemma {:induction false} ZerosBelow(n: nat)
    ensures forall k :: 0 <= k < |Zeros(n)| ==> Zeros(n)[k] == 0
  {
    if n > 0 {
      ZerosBelow(n - 1);
    }
  }

  lemma ScheduleBelow(busy: seq<nat>, ns: seq<nat>, a: nat, r: nat, i: nat)
    requires Listed(busy, ns) && i <= |busy| && ns != []
    ensures forall k :: 0 <= k < |Schedule(busy, ns, a, r, i)| ==> Schedule(busy, ns, a, r, i)[k] < |ns|
  {
    ZerosBelow(a);
    PassesBelow(busy, ns, r);
    PassBelow(busy[..i], ns, r);
  }

  /** As long as fewer commands were served than are waiting, a pass serves some. */
  lemma PassProgress(busy: seq<nat>, ns: seq<nat>, r: nat)
    requires Listed(busy, ns) && |Passes(busy, ns, r)| < Total(busy, ns)
    ensures 0 < |Pass(busy, ns, r)| <= |busy|
    ensures |Passes(busy, ns, r + 1)| == |Passes(busy, ns, r)| + |Pass(busy, ns, r)|
  {
    PassesLength(busy, ns, r);
    PassEmpty(busy, ns, r);
    PassLength(busy, ns, r);
  }

  lemma ScheduleZero(busy: seq<nat>, ns: seq<nat>, a: nat)
    requires Listed(busy, ns)
    ensures Schedule(busy, ns, a, 0, 0) == Zeros(a)
  {
    assert busy[..0] == [];
  }

  /** Commands one call of the dispatch loop aims to handle. */
  const BATCH := 100

  /** r passes serve at least the target, and no smaller number of passes does. */
  ghost predicate LeastPasses(busy: seq<nat>, ns: seq<nat>, target: nat, r: nat)
    requires Listed(busy, ns)
  {
    && target <= |Passes(busy, ns, r)|
    && forall k :: 0 <= k < r ==> |Passes(busy, ns, k)| < target
  }

  /** What is left of the target after r passes, none of which came too late. */
  ghost predicate Budget(busy: seq<nat>, ns: seq<nat>, target: nat, r: nat, left: int)
    requires Listed(busy, ns)
  {
    && left == target - |Passes(busy, ns, r)|
    && forall k :: 0 <= k < r ==> |Passes(busy, ns, k)| < target
  }

  lemma BudgetStart(busy: seq<nat>, ns: seq<nat>, target: nat)
    requires Listed(busy, ns)
    ensures Budget(busy, ns, target, 0, target)
  {
  }

  lemma BudgetStep(busy: seq<nat>, ns: seq<nat>, target: nat, r: nat, left: int)
    requires Listed(busy, ns) && target <= Total(busy, ns) && Budget(busy, ns, target, r, left) && left > 0
    ensures |Pass(busy, ns, r)| > 0 && Budget(busy, ns, target, r + 1, left - |Pass(busy, ns, r)|)
  {
    PassProgress(busy, ns, r);
  }

  lemma BudgetSpent(busy: seq<nat>, ns: seq<nat>, target: nat, r: nat, left: int)
    requires Listed(busy, ns) && Budget(busy, ns, target, r, left) && left <= 0
    ensures LeastPasses(busy, ns, target, r)
  {
  }

  /** What one call of the dispatch loop serves when ns commands are waiting per queue. */
  ghost predicate Dispatched(ns: seq<nat>, rounds: nat, served: seq<nat>)
    requires ns != []
  {
    var busy := BusyIds(ns, |ns|);
    && Listed(busy, ns)
    && served == Zeros(ns[0]) + Passes(busy, ns, rounds)
    && LeastPasses(busy, ns, Min(BATCH, Total(busy, ns)), rounds)
  }

  lemma ScheduleDispatched(ns: seq<nat>, busy: seq<nat>, r: nat)
    requires ns != [] && busy == BusyIds(ns, |ns|) && Listed(busy, ns)
    requires LeastPasses(busy, ns, Min(BATCH, Total(busy, ns)), r)
    ensures Dispatched(ns, r, Schedule(busy, ns, ns[0], r, 0))
  {
    assert busy[..0] == [];
    assert Zeros(ns[0]) + Passes(busy, ns, r) + [] == Zeros(ns[0]) + Passes(busy, ns, r);
  }

  lemma Overshoot(busy: seq<nat>, ns: seq<nat>, target: nat, r: nat)
    requires Listed(busy, ns) && LeastPasses(busy, ns, target, r) && busy != []
    ensures |Passes(busy, ns, r)| < target + |busy|
  {
    if r > 0 {
      PassLength(busy, ns, r - 1);
    }
  }

  lemma DispatchedTimes(ns: seq<nat>, busy: seq<nat>, r: nat, q: nat)
    requires ns != [] && busy == BusyIds(ns, |ns|) && Listed(busy, ns) && q < |ns|
    ensures Times(Zeros(ns[0]) + Passes(busy, ns, r), q) == if q == 0 then ns[0] else Min(r, ns[q])
  {
    BusyIdsExact(ns, |ns|);
    ZerosTimes(ns[0], q);
    PassesMembers(busy, ns, r, q);
    TimesAppend(Zeros(ns[0]), Passes(busy, ns, r), q);
  }

  /** Commands waiting in the IO queues among the first n queues. */
  ghost function IoWaiting(ns: seq<nat>, n: nat): nat
    requires n <= |ns|
  {
    if n <= 1 then 0 else IoWaiting(ns, n - 1) + ns[n - 1]
  }

  lemma BusyStep(ns: seq<nat>, n: nat)
    requires n < |ns|
    ensures var busy, busy' := BusyIds(ns, n), BusyIds(ns, n + 1);
            && Listed(busy, ns) && Listed(busy', ns)
            && (n > 0 && ns[n] > 0 ==> busy' == busy + [n] && Total(busy', ns) == Total(busy, ns) + ns[n])
            && (n == 0 || ns[n] == 0 ==> busy' == busy)
  {
    BusyIdsExact(ns, n);
    BusyIdsExact(ns, n + 1);
    assert (BusyIds(ns, n) + [n])[..|BusyIds(ns, n)|] == BusyIds(ns, n);
  }

  ghost function BusyTotal(ns: seq<nat>, n: nat): nat
    requires n <= |ns|
  {
    BusyIdsExact(ns, n);
    Total(BusyIds(ns, n), ns)
  }

  lemma BusyTotalGrows(ns: seq<nat>, n: nat)
    requires n < |ns|
    ensures BusyTotal(ns, 0) == 0
    ensures BusyTotal(ns, n + 1) == BusyTotal(ns, n) + (if n > 0 then ns[n] else 0)
  {
    BusyStep(ns, n);
    assert BusyIds(ns, 0) == [];
  }

  lemma {:induction false} TotalIsWaiting(ns: seq<nat>, n: nat)
    requires n <= |ns|
    ensures BusyTotal(ns, n) == IoWaiting(ns, n)
  {
    if n > 0 {
      TotalIsWaiting(ns, n - 1);
      BusyTotalGrows(ns, n - 1);
    }
  }

  /** Passes that serve all that is waiting serve every queue to its end. */
  lemma EveryoneServed(busy: seq<nat>, ns: seq<nat>, r: nat, q: nat)
    requires Listed(busy, ns) && Total(busy, ns) <= |Passes(busy, ns, r)| && q in busy
    ensures ns[q] <= r
  {
    PassesLength(busy, ns, r);
    PassEmpty(busy, ns, r);
    PassMembers(busy, ns, r, q);
  }

  lemma PassesReach(busy: seq<nat>, ns: seq<nat>, target: nat, r: nat)
    requires Listed(busy, ns) && LeastPasses(busy, ns, target, r) && 0 < target
    ensures 0 < r && |Passes(busy, ns, r)| - |Pass(busy, ns, r - 1)| < target
  {
    assert Passes(busy, ns, 0) == [];
    assert Passes(busy, ns, r) == Passes(busy, ns, r - 1) + Pass(busy, ns, r - 1);
  }

  /** Exact round robin. The admin queue is drained and every IO queue is served min(rounds,
      waiting) times. Up to 100 waiting IO commands are all served. */
  lemma DispatchedExact(ns: seq<nat>, rounds: nat, served: seq<nat>, q: nat)
    requires ns != [] && Dispatched(ns, rounds, served) && q < |ns|
    ensures Times(served, q) == if q == 0 then ns[0] else Min(rounds, ns[q])
    ensures IoWaiting(ns, |ns|) <= 100 ==> Times(served, q) == ns[q]
  {
    var busy := BusyIds(ns, |ns|);
    ZerosTimes(ns[0], q);
    DispatchedTimes(ns, busy, rounds, q);
    TotalIsWaiting(ns, |ns|);
    BusyIdsExact(ns, |ns|);
    if IoWaiting(ns, |ns|) <= 100 && q in busy {
      EveryoneServed(busy, ns, rounds, q);
    }
  }

  /** Of more than 100 waiting IO commands at least 100 are served, and fewer than 100 before
      the last pass. */
  lemma DispatchedBatch(ns: seq<nat>, rounds: nat, served: seq<nat>)
    requires ns != [] && Dispatched(ns, rounds, served) && IoWaiting(ns, |ns|) > 100
    ensures var busy := BusyIds(ns, |ns|);
            && 100 <= |served| - ns[0] < 100 + |busy|
            && 0 < rounds && |served| - ns[0] - |Pass(busy, ns, rounds - 1)| < 100
  {
    var busy := BusyIds(ns, |ns|);
    ZerosTimes(ns[0], 0);
    TotalIsWaiting(ns, |ns|);
    Overshoot(busy, ns, 100, rounds);
    PassesReach(busy, ns, 100, rounds);
  }

  lemma {:induction false} TotalMember(busy: seq<nat>, ns: seq<nat>, q: nat)
    requires Listed(busy, ns) && q in busy
    ensures ns[q] <= Total(busy, ns)
  {
    var n := |busy| - 1;
    if q != busy[n] {
      assert busy == busy[..n] + [busy[n]];
      TotalMember(busy[..n], ns, q);
    }
  }

  /** Every queue with a command waiting is served at least once per call. */
  lemma NoStarvation(ns: seq<nat>, rounds: nat, served: seq<nat>, q: nat)
    requires ns != [] && Dispatched(ns, rounds, served) && q < |ns| && ns[q] > 0
    ensures Times(served, q) > 0
  {
    var busy := BusyIds(ns, |ns|);
    DispatchedExact(ns, rounds, served, q);
    if q > 0 {
      BusyIdsExact(ns, |ns|);
      SomeRounds(ns, busy, rounds, q);
    }
  }

  lemma SomeRounds(ns: seq<nat>, busy: seq<nat>, rounds: nat, q: nat)
    requires Listed(busy, ns) && q in busy && ns[q] > 0
    requires LeastPasses(busy, ns, Min(BATCH, Total(busy, ns)), rounds)
    ensures rounds > 0
  {
    TotalMember(busy, ns, q);
    assert Passes(busy, ns, 0) == [];
  }

  // ---- The whole plan, and where a call may stop in it ------------------------------

  lemma {:induction false} LeastPassesExist(busy: seq<nat>, ns: seq<nat>, target: nat, r: nat, left: int)
    returns (least: nat)
    requires Listed(busy, ns) && target <= Total(busy, ns) && Budget(busy, ns, target, r, left)
    ensures LeastPasses(busy, ns, target, least)
    decreases left
  {
    least := r;
    if left > 0 {
      BudgetStep(busy, ns, target, r, left);
      least := LeastPassesExist(busy, ns, target, r + 1, left - |Pass(busy, ns, r)|);
    } else {
      BudgetSpent(busy, ns, target, r, left);
    }
  }

  /** Every call has a plan. */
  lemma PlanExists(ns: seq<nat>) returns (rounds: nat, served: seq<nat>)
    requires ns != []
    ensures Dispatched(ns, rounds, served)
  {
    var busy := BusyIds(ns, |ns|);
    BusyIdsExact(ns, |ns|);
    var target := Min(BATCH, Total(busy, ns));
    BudgetStart(busy, ns, target);
    rounds := LeastPassesExist(busy, ns, target, 0, target);
    served := Zeros(ns[0]) + Passes(busy, ns, rounds);
  }

  /** There is only one. */
  lemma PlanUnique(ns: seq<nat>, rounds: nat, served: seq<nat>, rounds': nat, served': seq<nat>)
    requires ns != [] && Dispatched(ns, rounds, served) && Dispatched(ns, rounds', served')
    ensures rounds == rounds' && served == served'
  {
  }

  lemma {:induction false} PassPrefix(busy: seq<nat>, ns: seq<nat>, r: nat, i: nat)
    requires Listed(busy, ns) && i <= |busy|
    ensures Pass(busy[..i], ns, r) <= Pass(busy, ns, r)
    decreases |busy| - i
  {
    if i < |busy| {
      PassStep(busy, ns, r, i);
      PassPrefix(busy, ns, r, i + 1);
    } else {
      assert busy[..i] == busy;
    }
  }

  lemma {:induction false} PassesPrefix(busy: seq<nat>, ns: seq<nat>, r: nat, n: nat)
    requires Listed(busy, ns) && r <= n
    ensures Passes(busy, ns, r) <= Passes(busy, ns, n)
    decreases n
  {
    if r < n {
      PassesPrefix(busy, ns, r, n - 1);
    }
  }

  /** What is served at some point of pass r is the front of what n passes serve. */
  lemma SchedulePrefix(busy: seq<nat>, ns: seq<nat>, a: nat, r: nat, i: nat, n: nat)
    requires Listed(busy, ns) && i <= |busy| && r < n
    ensures Schedule(busy, ns, a, r, i) <= Zeros(a) + Passes(busy, ns, n)
  {
    PassPrefix(busy, ns, r, i);
    PassesPrefix(busy, ns, r + 1, n);
    FrontOf(Zeros(a), Passes(busy, ns, r), Pass(busy[..i], ns, r), Pass(busy, ns, r), Passes(busy, ns, n));
  }

  lemma FrontOf(z: seq<nat>, p: seq<nat>, x: seq<nat>, y: seq<nat>, all: seq<nat>)
    requires x <= y && p + y <= all
    ensures z + p + x <= z + all
  {
    assert p + x <= p + y;
  }

  lemma {:induction false} ZerosPrefix(k: nat, n: nat)
    requires k <= n
    ensures Zeros(k) <= Zeros(n)
  {
    if k < n {
      ZerosPrefix(k, n - 1);
    }
  }

  /** A call that stops while its budget lasts has served the front of the plan. */
  lemma StopsInPlan(ns: seq<nat>, busy: seq<nat>, rounds: nat, served: seq<nat>, r: nat, i: nat)
    requires ns != [] && busy == BusyIds(ns, |ns|) && Dispatched(ns, rounds, served) && i <= |busy|
    requires |Passes(busy, ns, r)| < Min(BATCH, Total(busy, ns))
    ensures Schedule(busy, ns, ns[0], r, i) <= served
  {
    if rounds <= r {
      PassesPrefix(busy, ns, rounds, r);
      assert false;
    }
    SchedulePrefix(busy, ns, ns[0], r, i, rounds);
  }

  // ---- Who comes first --------------------------------------------------------------

  lemma {:induction false} BusyIdsGrow(ns: seq<nat>, n: nat)
    requires n <= |ns|
    ensures forall i :: 0 <= i < |BusyIds(ns, n)| ==> BusyIds(ns, n)[i] < n && ns[BusyIds(ns, n)[i]] > 0
    ensures forall i, j :: 0 <= i < j < |BusyIds(ns, n)| ==> BusyIds(ns, n)[i] < BusyIds(ns, n)[j]
  {
    if n > 0 {
      BusyIdsGrow(ns, n - 1);
    }
  }

  /** The first pass serves every busy queue. */
  lemma {:induction false} FirstPass(busy: seq<nat>, ns: seq<nat>)
    requires Listed(busy, ns) && forall i :: 0 <= i < |busy| ==> ns[busy[i]] > 0
    ensures Pass(busy, ns, 0) == busy
  {
    if busy != [] {
      FirstPass(busy[..|busy| - 1], ns);
    }
  }

  lemma {:induction false} PassesStart(busy: seq<nat>, ns: seq<nat>, r: nat)
    requires Listed(busy, ns) && 0 < r
    ensures Pass(busy, ns, 0) <= Passes(busy, ns, r)
  {
    if r == 1 {
      assert Passes(busy, ns, 0) == [];
    } else {
      PassesStart(busy, ns, r - 1);
    }
  }

  lemma {:induction false} TimesIn(xs: seq<nat>, q: nat)
    ensures q in xs <==> Times(xs, q) > 0
  {
    if xs != [] {
      TimesIn(xs[..|xs| - 1], q);
      assert xs == xs[..|xs| - 1] + [xs[|xs| - 1]];
    }
  }

  /** Whoever is served, every queue before it in the table with commands waiting was served
      before. */
  ghost predicate InTableOrder(ns: seq<nat>, served: seq<nat>) {
    forall k, p :: 0 <= k < |served| && 0 <= p < served[k] && p < |ns| && ns[p] > 0 ==> p in served[..k]
  }

  lemma InPrefix(xs: seq<nat>, j: nat, k: nat)
    requires j < k <= |xs|
    ensures xs[j] in xs[..k]
  {
    assert xs[..k][j] == xs[j];
  }

  lemma TableOrderOf(ns: seq<nat>, a: nat, busy: seq<nat>, served: seq<nat>)
    requires ns != [] && a == ns[0] && Zeros(a) + busy <= served
    requires forall i :: 0 <= i < |busy| ==> 0 < busy[i]
    requires forall i, j :: 0 <= i < j < |busy| ==> busy[i] < busy[j]
    requires forall q :: 1 <= q < |ns| && ns[q] > 0 ==> q in busy
    ensures InTableOrder(ns, served)
  {
    ZerosTimes(a, 0);
    ZerosBelow(a);
    forall k, p | 0 <= k < |served| && 0 <= p < served[k] && p < |ns| && ns[p] > 0
      ensures p in served[..k]
    {
      if p == 0 {
        assert served[0] == 0;
        InPrefix(served, 0, k);
      } else {
        var i :| 0 <= i < |busy| && busy[i] == p;
        assert served[a + i] == busy[i];
        if k < a + |busy| {
          assert served[k] == if k < a then 0 else busy[k - a];
        }
        InPrefix(served, a + i, k);
      }
    }
  }

  lemma PrefixAfter(a: seq<nat>, b: seq<nat>, c: seq<nat>)
    requires b <= c
    ensures a + b <= a + c
  {
  }

  /** A call starts with the admin commands and one turn of every busy queue. */
  lemma StartsWithBusy(ns: seq<nat>, busy: seq<nat>, rounds: nat, served: seq<nat>)
    requires ns != [] && busy == BusyIds(ns, |ns|) && Dispatched(ns, rounds, served)
    ensures Zeros(ns[0]) + busy <= served
  {
    BusyIdsGrow(ns, |ns|);
    if busy != [] {
      TotalMember(busy, ns, busy[0]);
      assert Passes(busy, ns, 0) == [];
      FirstPass(busy, ns);
      PassesStart(busy, ns, rounds);
    }
    PrefixAfter(Zeros(ns[0]), busy, Passes(busy, ns, rounds));
  }

  /** One call of the dispatch loop serves in table order. */
  lemma DispatchedInOrder(ns: seq<nat>, rounds: nat, served: seq<nat>)
    requires ns != [] && Dispatched(ns, rounds, served)
    ensures InTableOrder(ns, served)
  {
    var busy := BusyIds(ns, |ns|);
    StartsWithBusy(ns, busy, rounds, served);
    BusyIdsSorted(ns, busy);
    TableOrderOf(ns, ns[0], busy, served);
  }

  lemma BusyIdsSorted(ns: seq<nat>, busy: seq<nat>)
    requires busy == BusyIds(ns, |ns|)
    ensures forall i :: 0 <= i < |busy| ==> 0 < busy[i]
    ensures forall i, j :: 0 <= i < j < |busy| ==> busy[i] < busy[j]
    ensures forall q :: 1 <= q < |ns| && ns[q] > 0 ==> q in busy
  {
    BusyIdsExact(ns, |ns|);
    BusyIdsGrow(ns, |ns|);
    assert forall i :: 0 <= i < |busy| ==> busy[i] in busy;
  }

  // ---- The whole order --------------------------------------------------------------

  lemma {:induction false} LocateInPass(busy: seq<nat>, ns: seq<nat>, r: nat, k: nat) returns (i: nat)
    requires Listed(busy, ns) && k < |Pass(busy, ns, r)|
    ensures i < |busy| && Pass(busy, ns, r)[..k] == Pass(busy[..i], ns, r)
    ensures Pass(busy, ns, r)[k] == busy[i] && ns[busy[i]] > r
  {
    var n := |busy| - 1;
    var front := Pass(busy[..n], ns, r);
    if k < |front| {
      i := LocateInPass(busy[..n], ns, r, k);
      assert busy[..n][..i] == busy[..i];
    } else {
      i := n;
    }
  }

  lemma {:induction false} Locate(busy: seq<nat>, ns: seq<nat>, rounds: nat, k: nat) returns (r: nat, i: nat)
    requires Listed(busy, ns) && k < |Passes(busy, ns, rounds)|
    ensures i < |busy| && Passes(busy, ns, rounds)[..k] == Passes(busy, ns, r) + Pass(busy[..i], ns, r)
    ensures Passes(busy, ns, rounds)[k] == busy[i] && ns[busy[i]] > r
  {
    var front, last := Passes(busy, ns, rounds - 1), Pass(busy, ns, rounds - 1);
    CutJoined(front, last, k);
    if k < |front| {
      r, i := Locate(busy, ns, rounds - 1, k);
    } else {
      r := rounds - 1;
      i := LocateInPass(busy, ns, r, k - |front|);
    }
  }

  lemma CutJoined(a: seq<nat>, b: seq<nat>, k: nat)
    requires k < |a + b|
    ensures k < |a| ==> (a + b)[..k] == a[..k] && (a + b)[k] == a[k]
    ensures |a| <= k ==> (a + b)[..k] == a + b[..k - |a|] && (a + b)[k] == b[k - |a|]
  {
  }

  lemma SortedFront(xs: seq<nat>, i: nat, p: nat)
    requires i < |xs| && forall j, k :: 0 <= j < k < |xs| ==> xs[j] < xs[k]
    ensures p in xs[..i] <==> p in xs && p < xs[i]
  {
    if p in xs && p < xs[i] {
      var j :| 0 <= j < |xs| && xs[j] == p;
      assert xs[..i][j] == p;
    }
  }

  lemma Earlier(ns: seq<nat>, busy: seq<nat>, i: nat, p: nat)
    requires busy == BusyIds(ns, |ns|) && i < |busy| && p < |ns|
    ensures p in busy[..i] <==> 0 < p < busy[i] && ns[p] > 0
    ensures p in busy <==> 0 < p && ns[p] > 0
  {
    BusyIdsSorted(ns, busy);
    BusyIdsExact(ns, |ns|);
    SortedFront(busy, i, p);
  }

  lemma ServedInPass(ns: seq<nat>, busy: seq<nat>, a: nat, r: nat, i: nat, p: nat)
    requires busy == BusyIds(ns, |ns|) && Listed(busy, ns) && i < |busy| && p < |ns|
    ensures Times(Schedule(busy, ns, a, r, i), p) ==
            if p == 0 then a else Min(if p < busy[i] then r + 1 else r, ns[p])
  {
    ScheduleTimes(busy, ns, a, r, i, p);
    Earlier(ns, busy, i, p);
  }

  /** What was served before a turn of q, as far as p is concerned: before turn j + 1 of an IO
      queue, the admin queue to its end, and every other IO queue j + 1 times if it stands
      before in the table and j times if behind, as far as it had commands. */
  ghost predicate InTurn(before: seq<nat>, q: nat, ns: seq<nat>, p: nat)
    requires p < |ns|
  {
    var j := Times(before, q);
    Times(before, p) ==
    if q == 0 then (if p == 0 then j else 0)
    else if p == 0 then ns[0] else Min(if p < q then j + 1 else j, ns[p])
  }

  lemma OrderInPass(ns: seq<nat>, busy: seq<nat>, r: nat, i: nat, p: nat)
    requires busy == BusyIds(ns, |ns|) && Listed(busy, ns) && i < |busy| && p < |ns| && ns[busy[i]] > r
    ensures InTurn(Schedule(busy, ns, ns[0], r, i), busy[i], ns, p)
  {
    ServedInPass(ns, busy, ns[0], r, i, p);
    ServedInPass(ns, busy, ns[0], r, i, busy[i]);
    Earlier(ns, busy, i, busy[i]);
  }

  lemma LocateTurn(ns: seq<nat>, busy: seq<nat>, rounds: nat, served: seq<nat>, k: nat) returns (r: nat, i: nat)
    requires Listed(busy, ns) && ns != [] && served == Zeros(ns[0]) + Passes(busy, ns, rounds)
    requires ns[0] <= k < |served| && |Zeros(ns[0])| == ns[0]
    ensures i < |busy| && served[..k] == Schedule(busy, ns, ns[0], r, i) && served[k] == busy[i] && ns[busy[i]] > r
  {
    var turns := Passes(busy, ns, rounds);
    r, i := Locate(busy, ns, rounds, k - ns[0]);
    assert served[..k] == Zeros(ns[0]) + turns[..k - ns[0]];
    assert Zeros(ns[0]) + (Passes(busy, ns, r) + Pass(busy[..i], ns, r)) == Schedule(busy, ns, ns[0], r, i);
  }

  /** The order is that of a round robin, turn by turn. */
  lemma TurnOrder(ns: seq<nat>, rounds: nat, served: seq<nat>, k: nat, p: nat)
    requires ns != [] && Dispatched(ns, rounds, served) && k < |served| && p < |ns|
    ensures InTurn(served[..k], served[k], ns, p)
  {
    var busy := BusyIds(ns, |ns|);
    ZerosTimes(ns[0], p);
    if k < ns[0] {
      ZerosFront(ns[0], k);
      ZerosTimes(k, p);
      assert served[..k] == Zeros(ns[0])[..k];
    } else {
      var r, i := LocateTurn(ns, busy, rounds, served, k);
      OrderInPass(ns, busy, r, i, p);
    }
  }

  lemma {:induction false} ZerosFront(n: nat, k: nat)
    requires k < n
    ensures |Zeros(n)| == n && Zeros(n)[k] == 0 && Zeros(n)[..k] == Zeros(k)
  {
    ZerosTimes(n, 0);
    ZerosBelow(n);
    ZerosTimes(k, 0);
    ZerosPrefix(k, n);
  }
}
