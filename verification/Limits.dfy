/** The exact conditions under which a run can fire the two remaining assertions: "CQ FULL",
    and the lookup of a command that is not outstanding. */
module Limits {
  import opened Options
  import opened Ring
  import opened Protocol
  import opened ProtocolSafety
  import opened Conservation

  const NOP := Sqe(0, 0, 0, 0, 0, 0, 0)

  // ---- Putting runs together --------------------------------------------------------

  lemma {:induction false} RunAppend(s: State, h: Hist, first: seq<Action>, second: seq<Action>)
    requires Wired(s) && Tracks(s, h) && Run(s, h, first).Ended?
    ensures var r := Run(s, h, first);
            && Wired(r.s) && Tracks(r.s, r.h) && Run(s, h, first + second) == Run(r.s, r.h, second)
            && (Fresh(s, h, first) && Fresh(r.s, r.h, second) ==> Fresh(s, h, first + second))
    decreases |first|
  {
    if first == [] {
      assert first + second == second;
    } else {
      StepWired(s, h, first[0]);
      assert first + second == [first[0]] + (first[1..] + second);
      RunCons(s, h, first[0], first[1..]);
      RunCons(s, h, first[0], first[1..] + second);
      assert first == [first[0]] + first[1..];
      RunAppend(Step(s, first[0]).s, Record(s, h, first[0]), first[1..], second);
    }
  }

  lemma RunCons(s: State, h: Hist, a: Action, rest: seq<Action>)
    requires Wired(s) && Tracks(s, h) && Legal(s, a) && !Step(s, a).Crash?
    ensures Wired(Step(s, a).s) && Tracks(Step(s, a).s, Record(s, h, a))
    ensures Run(s, h, [a] + rest) == Run(Step(s, a).s, Record(s, h, a), rest)
    ensures Fresh(s, h, [a] + rest) == (Allowed(s, a) && Fresh(Step(s, a).s, Record(s, h, a), rest))
  {
    StepWired(s, h, a);
    assert ([a] + rest)[1..] == rest;
  }

  lemma RunOne(s: State, h: Hist, a: Action)
    requires Wired(s) && Tracks(s, h) && Legal(s, a)
    ensures Run(s, h, [a]) == if Step(s, a).Crash? then Crashed(Step(s, a).fault)
            else Ended(Step(s, a).s, Record(s, h, a))
    ensures Allowed(s, a) ==> Fresh(s, h, [a])
  {
    assert [a][1..] == [];
    if !Step(s, a).Crash? {
      StepWired(s, h, a);
    }
  }

  // ---- One device turn --------------------------------------------------------------

  /** What serving one command of q changes: one completion more, the host's side as it was. */
  ghost predicate Turned(s: State, h: Hist, q: nat, s': State, h': Hist)
    requires Wired(s) && Tracks(s, h) && q < |s.sqs|
  {
    var c := s.cqOf[q];
    && Sound(s', h') && SameShape(s, s') && s'.flight.Idle?
    && s'.outstanding == s.outstanding && s'.cids == s.cids
    && h'.posted == h.posted && h'.stamps == h.stamps && h'.allocs == h.allocs && h'.consumed == h.consumed
    && |h'.comps| == |h.comps| && |h'.comps[c]| == |h.comps[c]| + 1 && h'.comps[c][..|h.comps[c]|] == h.comps[c]
    && h'.comps[c][|h.comps[c]|].sqid == q
    && forall b :: 0 <= b < |h.comps| && b != c ==> h'.comps[b] == h.comps[b]
  }

  lemma FetchesWaiting(s: State, h: Hist, q: nat)
    requires Sound(s, h) && s.flight.Idle? && q < |s.sqs| && Completed(s, h, q) < |h.posted[q]|
    ensures var t := FetchStep(s, q).s;
            && Sound(t, h) && t.flight.Busy? && t.flight.q == q && SameShape(s, t)
            && t.cqs == s.cqs && t.outstanding == s.outstanding && t.cids == s.cids
  {
    StepSound(s, h, Fetch(q));
    FetchQueues(s, h, q);
    StepWired(s, h, Fetch(q));
  }

  lemma ServeTurn(s: State, h: Hist, q: nat)
    requires Sound(s, h) && s.flight.Idle? && q < |s.sqs| && Completed(s, h, q) < |h.posted[q]|
    ensures Fresh(s, h, [Fetch(q), Complete(0)])
    ensures var r := Run(s, h, [Fetch(q), Complete(0)]);
            var c := s.cqOf[q];
            if |h.comps[c]| + 1 == h.consumed[c] + s.cqs[c].entries then r == Crashed(CqFull)
            else r.Ended? && Turned(s, h, q, r.s, r.h)
  {
    FetchesWaiting(s, h, q);
    var t, c := FetchStep(s, q).s, s.cqOf[q];
    RunOne(s, h, Fetch(q));
    RunOne(t, h, Complete(0));
    assert [Fetch(q)] + [Complete(0)] == [Fetch(q), Complete(0)];
    RunAppend(s, h, [Fetch(q)], [Complete(0)]);
    assert CqInv(s.cqs[c], h.comps[c], h.consumed[c]);
    OccupancyExact(h.consumed[c], |h.comps[c]|, s.cqs[c].entries);
    StepSound(t, h, Complete(0));
    if !CompleteStep(t, 0).Crash? {
      StepWired(t, h, Complete(0));
    }
  }

  // ---- How much room a completion queue needs ---------------------------------------

  /** Commands posted to the SQs that feed c, over the first n SQs. */
  ghost function Load(s: State, h: Hist, c: nat, n: nat): nat
    requires Wired(s) && Tracks(s, h) && n <= |s.sqs|
  {
    if n == 0 then 0 else Load(s, h, c, n - 1) + (if s.cqOf[n - 1] == c then |h.posted[n - 1]| else 0)
  }

  lemma {:induction false} LoadSame(s: State, h: Hist, s': State, h': Hist, c: nat, n: nat)
    requires Wired(s) && Tracks(s, h) && Wired(s') && Tracks(s', h') && SameShape(s, s') && h'.posted == h.posted
    requires n <= |s.sqs|
    ensures Load(s', h', c, n) == Load(s, h, c, n)
  {
    if n > 0 {
      LoadSame(s, h, s', h', c, n - 1);
    }
  }

  lemma {:induction false} LoadPosted(s: State, h: Hist, s': State, h': Hist, q: nat, entry: Sqe, c: nat, n: nat)
    requires Wired(s) && Tracks(s, h) && Wired(s') && Tracks(s', h') && SameShape(s, s')
    requires q < |s.sqs| && h'.posted == h.posted[q := h.posted[q] + [entry]] && s.cqOf[q] == c && n <= |s.sqs|
    ensures Load(s', h', c, n) == Load(s, h, c, n) + (if q < n then 1 else 0)
  {
    if n > 0 {
      LoadPosted(s, h, s', h', q, entry, c, n - 1);
    }
  }

  lemma {:induction false} LoadNone(s: State, h: Hist, c: nat, n: nat)
    requires Wired(s) && Tracks(s, h) && n <= |s.sqs| && forall q :: 0 <= q < |s.sqs| ==> h.posted[q] == []
    ensures Load(s, h, c, n) == 0
  {
    if n > 0 {
      LoadNone(s, h, c, n - 1);
    }
  }

  /** Less than the demand is posted: some SQ that feeds c is not full. */
  lemma {:induction false} FindRoom(s: State, h: Hist, c: nat, n: nat) returns (q: nat)
    requires Wired(s) && Tracks(s, h) && n <= |s.sqs| && Load(s, h, c, n) < Demand(s, c, n)
    ensures q < n && s.cqOf[q] == c && |h.posted[q]| < s.sqs[q].entries - 1
  {
    q := n - 1;
    if s.cqOf[q] != c || |h.posted[q]| >= s.sqs[q].entries - 1 {
      q := FindRoom(s, h, c, n - 1);
    }
  }

  /** More is posted than completed: some SQ that feeds c has a command left. */
  lemma {:induction false} FindWaiting(s: State, h: Hist, c: nat, n: nat) returns (q: nat)
    requires Wired(s) && Tracks(s, h) && c < |s.cqs| && n <= |s.sqs| && Load(s, h, c, n) > Spread(h.comps[c], 0, n)
    ensures q < n && s.cqOf[q] == c && Count(h.comps[c], q) < |h.posted[q]|
  {
    q := n - 1;
    if s.cqOf[q] != c || Count(h.comps[c], q) >= |h.posted[q]| {
      q := FindWaiting(s, h, c, n - 1);
    }
  }

  /** The device serves the SQs that feed c while the host consumes nothing: if they hold at
      least as many commands as c has entries, the assertion fires in the end. */
  lemma {:induction false} DrainOverflows(s: State, h: Hist, c: nat) returns (actions: seq<Action>)
    requires Sound(s, h) && s.flight.Idle? && c < |s.cqs| && h.consumed[c] == 0
    requires Load(s, h, c, |s.sqs|) >= s.cqs[c].entries
    ensures Run(s, h, actions) == Crashed(CqFull) && Fresh(s, h, actions)
    decreases s.cqs[c].entries - |h.comps[c]|
  {
    assert CqInv(s.cqs[c], h.comps[c], h.consumed[c]);
    CompsBelong(s, h, c);
    SpreadIsLength(h.comps[c], 0, |s.sqs|);
    var q := FindWaiting(s, h, c, |s.sqs|);
    var turn := [Fetch(q), Complete(0)];
    ServeTurn(s, h, q);
    if |h.comps[c]| + 1 == s.cqs[c].entries {
      actions := turn;
    } else {
      var r := Run(s, h, turn);
      LoadSame(s, h, r.s, r.h, c, |s.sqs|);
      var rest := DrainOverflows(r.s, r.h, c);
      RunAppend(s, h, turn, rest);
      actions := turn + rest;
    }
  }

  /** Nothing of c's SQs has been served yet. */
  ghost predicate Unserved(s: State, h: Hist, c: nat) {
    Sound(s, h) && s.flight.Idle? && c < |s.cqs| && h.comps[c] == [] && h.consumed[c] == 0
  }

  /** CIDs have only gone to c's SQs, and not all of them. */
  ghost predicate FirstCids(s: State, h: Hist, c: nat, goal: nat)
    requires Wired(s) && Tracks(s, h)
  {
    OutInv(s, h) && h.allocs == Load(s, h, c, |s.sqs|) && goal <= s.cids.max - s.cids.init
  }

  lemma FloodPost(s: State, h: Hist, c: nat, q: nat)
    requires Unserved(s, h, c) && q < |s.sqs| && s.cqOf[q] == c && |h.posted[q]| < s.sqs[q].entries - 1
    ensures Step(s, Post(q, NOP)).Ok?
    ensures var s', h' := Step(s, Post(q, NOP)).s, Record(s, h, Post(q, NOP));
            && Unserved(s', h', c) && SameShape(s, s') && h'.allocs == h.allocs + 1
            && s'.cids.max == s.cids.max && s'.cids.init == s.cids.init
            && Load(s', h', c, |s.sqs|) == Load(s, h, c, |s.sqs|) + 1
  {
    HeadsInRingOrder(s, h, q);
    StepSound(s, h, Post(q, NOP));
    StepWired(s, h, Post(q, NOP));
    LoadPosted(s, h, Step(s, Post(q, NOP)).s, Record(s, h, Post(q, NOP)), q, NOP.(cid := s.cids.value), c, |s.sqs|);
  }

  lemma FloodFresh(s: State, h: Hist, c: nat, q: nat, goal: nat)
    requires Unserved(s, h, c) && q < |s.sqs| && s.cqOf[q] == c && |h.posted[q]| < s.sqs[q].entries - 1
    requires FirstCids(s, h, c, goal) && Load(s, h, c, |s.sqs|) < goal
    ensures Step(s, Post(q, NOP)).Ok? && Allowed(s, Post(q, NOP))
    ensures var s', h' := Step(s, Post(q, NOP)).s, Record(s, h, Post(q, NOP));
            Wired(s') && Tracks(s', h') && FirstCids(s', h', c, goal)
  {
    FloodPost(s, h, c, q);
    CidWindowGivesFresh(s, h, q);
    StepOut(s, h, Post(q, NOP));
  }

  /** The host posts to the SQs that feed c until `goal` commands are there. */
  lemma {:induction false} FloodPosts(s: State, h: Hist, c: nat, goal: nat, sparing: bool)
    returns (actions: seq<Action>)
    requires Unserved(s, h, c) && Load(s, h, c, |s.sqs|) <= goal <= Demand(s, c, |s.sqs|)
    requires sparing ==> FirstCids(s, h, c, goal)
    ensures var r := Run(s, h, actions);
            && r.Ended? && SameShape(s, r.s) && Unserved(r.s, r.h, c) && Load(r.s, r.h, c, |s.sqs|) == goal
            && (sparing ==> Fresh(s, h, actions))
    decreases goal - Load(s, h, c, |s.sqs|)
  {
    if Load(s, h, c, |s.sqs|) == goal {
      actions := [];
    } else {
      var q := FindRoom(s, h, c, |s.sqs|);
      var a := Post(q, NOP);
      FloodPost(s, h, c, q);
      if sparing {
        FloodFresh(s, h, c, q, goal);
      }
      var s', h' := Step(s, a).s, Record(s, h, a);
      DemandSame(s, s', c, |s.sqs|);
      var rest := FloodPosts(s', h', c, goal, sparing);
      RunOne(s, h, a);
      RunAppend(s, h, [a], rest);
      actions := [a] + rest;
    }
  }

  /** A run that fires the assertion, for a CQ without room for its SQs. It reuses no CID as
      long as the manager has as many as the CQ has entries. */
  lemma Overflow(s: State, c: nat) returns (actions: seq<Action>)
    requires Started(s) && c < |s.cqs| && !RoomFor(s, c)
    ensures QueuesInv(s, NoHist(s)) && Run(s, NoHist(s), actions) == Crashed(CqFull)
    ensures s.cqs[c].entries <= s.cids.max - s.cids.init ==> Fresh(s, NoHist(s), actions)
  {
    var h, n := NoHist(s), s.cqs[c].entries;
    StartInv(s);
    OutKeys(s, h);
    LoadNone(s, h, c, |s.sqs|);
    var posts := FloodPosts(s, h, c, n, n <= s.cids.max - s.cids.init);
    var r := Run(s, h, posts);
    var serves := DrainOverflows(r.s, r.h, c);
    RunAppend(s, h, posts, serves);
    actions := posts + serves;
  }

  /** The room condition is exact, for any number of queues sharing CQs in any way: "CQ FULL"
      can fire in some run if and only if some CQ has fewer entries than its SQs can have
      commands outstanding, plus one. Runs without CID reuse already show it. */
  lemma RoomIsExact(s: State)
    requires Started(s)
    ensures QueuesInv(s, NoHist(s))
    ensures (forall actions :: Run(s, NoHist(s), actions) != Crashed(CqFull)) <==> RoomInv(s)
    ensures (forall c :: 0 <= c < |s.cqs| ==> s.cqs[c].entries <= s.cids.max - s.cids.init) ==>
              ((forall actions :: Fresh(s, NoHist(s), actions) ==> Run(s, NoHist(s), actions) != Crashed(CqFull))
                   <==> RoomInv(s))
  {
    RunsAreSafe(s, []);
    if RoomInv(s) {
      forall actions
        ensures Run(s, NoHist(s), actions) != Crashed(CqFull)
      {
        RunsAreSafe(s, actions);
      }
    } else {
      var c :| 0 <= c < |s.cqs| && !RoomFor(s, c);
      var actions := Overflow(s, c);
      assert Run(s, NoHist(s), actions) == Crashed(CqFull);
    }
  }

  // ---- When a command can be lost ---------------------------------------------------

  /** q alone is at work: the device rests, and the host has taken every completion of its CQ. */
  ghost predicate Settled(s: State, h: Hist, q: nat) {
    && Sound(s, h) && s.flight.Idle? && q < |s.sqs|
    && h.consumed[s.cqOf[q]] == |h.comps[s.cqOf[q]]| && 2 <= s.cqs[s.cqOf[q]].entries
  }

  lemma SettledCounts(s: State, h: Hist, q: nat)
    requires Settled(s, h, q)
    ensures Completed(s, h, q) == Consumed(s, h, q)
  {
    var t := h.comps[s.cqOf[q]];
    assert t[..|t|] == t;
  }

  /** A command of q served and polled. */
  function Trip(s: State, q: nat): seq<Action>
    requires q < |s.cqOf|
  {
    [Fetch(q), Complete(0)] + [Poll(s.cqOf[q])]
  }

  /** The oldest pending command of q, and its key. */
  ghost function OldestKey(s: State, h: Hist, q: nat): (nat, nat)
    requires Wired(s) && Tracks(s, h) && q < |s.sqs| && Consumed(s, h, q) < |h.posted[q]|
  {
    (h.posted[q][Consumed(s, h, q)].cid, q)
  }

  /** After a trip: one command consumed, its key gone. */
  ghost predicate Tripped(s: State, h: Hist, q: nat, s': State, h': Hist)
    requires Wired(s) && Tracks(s, h) && q < |s.sqs| && Consumed(s, h, q) < |h.posted[q]|
  {
    && Settled(s', h', q) && SameShape(s, s') && s'.cids == s.cids
    && h'.posted == h.posted && h'.stamps == h.stamps && h'.allocs == h.allocs
    && Consumed(s', h', q) == Consumed(s, h, q) + 1
    && s'.outstanding == s.outstanding - {OldestKey(s, h, q)}
  }

  /** The poll after a turn looks the oldest command of q up, and raises exactly when it is
      not outstanding. */
  lemma PollAfterTurn(s: State, h: Hist, q: nat, t: State, g: Hist)
    requires Settled(s, h, q) && Consumed(s, h, q) < |h.posted[q]| && Turned(s, h, q, t, g)
    ensures var poll := Step(t, Poll(s.cqOf[q]));
            if OldestKey(s, h, q) !in s.outstanding then poll == Crash(UnknownCommand)
            else poll.Ok? && Tripped(s, h, q, poll.s, Record(t, g, Poll(s.cqOf[q])))
  {
    var c := s.cqOf[q];
    SettledCounts(s, h, q);
    assert Consumed(t, g, q) == Consumed(s, h, q);
    PollFinds(t, g, c);
    PollIsConsuming(t, g, c);
    StepSound(t, g, Poll(c));
    if OldestKey(s, h, q) in s.outstanding {
      PollCounts(t, g, c, q);
      PollQueues(t, g, c);
    }
  }

  lemma TripTurn(s: State, h: Hist, q: nat)
    requires Settled(s, h, q) && Consumed(s, h, q) < |h.posted[q]|
    ensures var r := Run(s, h, Trip(s, q));
            if OldestKey(s, h, q) !in s.outstanding then r == Crashed(UnknownCommand)
            else r.Ended? && Tripped(s, h, q, r.s, r.h)
  {
    var turn, c := [Fetch(q), Complete(0)], s.cqOf[q];
    SettledCounts(s, h, q);
    ServeTurn(s, h, q);
    var r := Run(s, h, turn);
    PollAfterTurn(s, h, q, r.s, r.h);
    RunOne(r.s, r.h, Poll(c));
    RunAppend(s, h, turn, [Poll(c)]);
  }

  ghost function Backlog(s: State, h: Hist, q: nat): int
    requires Wired(s) && Tracks(s, h) && q < |s.sqs|
  {
    |h.posted[q]| - Consumed(s, h, q)
  }

  /** After a post to q, accepted or refused: a CID was taken, nothing was consumed. */
  ghost predicate Attempted(s: State, h: Hist, q: nat, s': State, h': Hist, posts: nat, attempts: nat)
    requires Wired(s) && Tracks(s, h) && q < |s.sqs|
  {
    && Settled(s', h', q) && SameShape(s, s') && s'.cids.init == s.cids.init && s'.cids.max == s.cids.max
    && h'.allocs == h.allocs + attempts && Consumed(s', h', q) == Consumed(s, h, q)
    && h.posted[q] <= h'.posted[q] && |h'.posted[q]| == |h.posted[q]| + posts
    && h.stamps[q] <= h'.stamps[q] && |h'.stamps[q]| == |h'.posted[q]|
  }

  /** The newest command of q took the last CID handed out. */
  ghost predicate JustPosted(h: Hist, q: nat) {
    q < |h.stamps| && h.stamps[q] != [] && h.stamps[q][|h.stamps[q]| - 1] + 1 == h.allocs
  }

  lemma AttemptedTwice(s: State, h: Hist, q: nat, s1: State, h1: Hist, s2: State, h2: Hist, p1: nat, n1: nat, p2: nat,
                       n2: nat)
    requires Wired(s) && Tracks(s, h) && q < |s.sqs| && Wired(s1) && Tracks(s1, h1)
    requires Attempted(s, h, q, s1, h1, p1, n1) && Attempted(s1, h1, q, s2, h2, p2, n2)
    ensures Attempted(s, h, q, s2, h2, p1 + p2, n1 + n2)
  {
  }

  lemma PostHere(s: State, h: Hist, q: nat)
    requires Settled(s, h, q)
    ensures Backlog(s, h, q) <= s.sqs[q].entries - 1
    ensures var a := Post(q, NOP);
            var s', h' := Step(s, a).s, Record(s, h, a);
            && !Step(s, a).Crash?
            && Attempted(s, h, q, s', h', if Backlog(s, h, q) == s.sqs[q].entries - 1 then 0 else 1, 1)
            && (Backlog(s, h, q) < s.sqs[q].entries - 1 ==> JustPosted(h', q))
  {
    var a := Post(q, NOP);
    HeadsInRingOrder(s, h, q);
    StepSound(s, h, a);
    StepWired(s, h, a);
    var s', h' := Step(s, a).s, Record(s, h, a);
    assert |h.stamps[q]| == |h.posted[q]|;
    assert Consumed(s', h', q) == Consumed(s, h, q);
  }

  lemma {:induction false} FillQueue(s: State, h: Hist, q: nat) returns (actions: seq<Action>)
    requires Settled(s, h, q) && Backlog(s, h, q) <= s.sqs[q].entries - 1
    ensures var r := Run(s, h, actions);
            var room := s.sqs[q].entries - 1 - Backlog(s, h, q);
            && r.Ended? && Attempted(s, h, q, r.s, r.h, room, room)
            && (0 < room || JustPosted(h, q) ==> JustPosted(r.h, q))
    decreases s.sqs[q].entries - Backlog(s, h, q)
  {
    if Backlog(s, h, q) == s.sqs[q].entries - 1 {
      actions := [];
      assert |h.stamps[q]| == |h.posted[q]|;
    } else {
      var a := Post(q, NOP);
      PostHere(s, h, q);
      var s', h' := Step(s, a).s, Record(s, h, a);
      var rest := FillQueue(s', h', q);
      RunOne(s, h, a);
      RunAppend(s, h, [a], rest);
      actions := [a] + rest;
      var r, room := Run(s', h', rest), s.sqs[q].entries - 1 - Backlog(s, h, q);
      AttemptedTwice(s, h, q, s', h', r.s, r.h, 1, 1, room - 1, room - 1);
    }
  }

  /** A full queue refuses every post, but each takes a CID. */
  lemma {:induction false} RefusePosts(s: State, h: Hist, q: nat, n: nat) returns (actions: seq<Action>)
    requires Settled(s, h, q) && Backlog(s, h, q) == s.sqs[q].entries - 1
    ensures var r := Run(s, h, actions); r.Ended? && Attempted(s, h, q, r.s, r.h, 0, n)
    decreases n
  {
    if n == 0 {
      actions := [];
      assert |h.stamps[q]| == |h.posted[q]|;
    } else {
      var a := Post(q, NOP);
      PostHere(s, h, q);
      var s', h' := Step(s, a).s, Record(s, h, a);
      var rest := RefusePosts(s', h', q, n - 1);
      RunOne(s, h, a);
      RunAppend(s, h, [a], rest);
      actions := [a] + rest;
    }
  }

  /** n trips: the exception is raised on the way, or n commands are consumed. */
  lemma {:induction false} Trips(s: State, h: Hist, q: nat, n: nat) returns (actions: seq<Action>)
    requires Settled(s, h, q) && n <= Backlog(s, h, q)
    ensures var r := Run(s, h, actions);
            r == Crashed(UnknownCommand) ||
            (r.Ended? && Settled(r.s, r.h, q) && SameShape(s, r.s) && r.s.cids == s.cids
             && r.h.posted == h.posted && r.h.stamps == h.stamps && r.h.allocs == h.allocs
             && Consumed(r.s, r.h, q) == Consumed(s, h, q) + n)
    decreases n
  {
    if n == 0 {
      actions := [];
    } else {
      TripTurn(s, h, q);
      actions := Trip(s, q);
      if OldestKey(s, h, q) in s.outstanding {
        var r := Run(s, h, Trip(s, q));
        var rest := Trips(r.s, r.h, q, n - 1);
        RunAppend(s, h, Trip(s, q), rest);
        actions := Trip(s, q) + rest;
      }
    }
  }

  /** Two pending commands of q under one CID: the second lookup must fail. */
  lemma TwoAlike(s: State, h: Hist, q: nat) returns (actions: seq<Action>)
    requires Settled(s, h, q) && Backlog(s, h, q) == 2
    requires var i := Consumed(s, h, q); h.posted[q][i].cid == h.posted[q][i + 1].cid
    ensures Run(s, h, actions) == Crashed(UnknownCommand)
  {
    TripTurn(s, h, q);
    actions := Trip(s, q);
    if OldestKey(s, h, q) in s.outstanding {
      var r := Run(s, h, Trip(s, q));
      TripTurn(r.s, r.h, q);
      RunAppend(s, h, Trip(s, q), Trip(s, q));
      actions := Trip(s, q) + Trip(s, q);
    }
  }

  /** As many CIDs as there are have been handed out since the newest command of q took one. */
  ghost predicate ComesRound(s: State, h: Hist, q: nat) {
    && Settled(s, h, q) && Consumed(s, h, q) < |h.posted[q]| == |h.stamps[q]|
    && h.stamps[q][|h.posted[q]| - 1] + (s.cids.max - s.cids.init) == h.allocs
  }

  lemma SameCid(a: nat, r: nat)
    requires 0 < r
    ensures (a + r) % r == a % r
  {
    DivModUnique(a + r, r, a / r + 1, a % r);
  }

  lemma NextIsNewest(s: State, h: Hist, q: nat)
    requires ComesRound(s, h, q)
    ensures h.posted[q][|h.posted[q]| - 1].cid == s.cids.value
  {
    StampsGrow(s, h, q, |h.posted[q]| - 1, |h.posted[q]| - 1);
    SameCid(h.stamps[q][|h.posted[q]| - 1], s.cids.max - s.cids.init);
  }

  lemma PostRepeats(s: State, h: Hist, q: nat)
    requires ComesRound(s, h, q) && Backlog(s, h, q) == 1 && 3 <= s.sqs[q].entries
    ensures Step(s, Post(q, NOP)).Ok?
    ensures var s', h' := Step(s, Post(q, NOP)).s, Record(s, h, Post(q, NOP));
            && Settled(s', h', q) && Backlog(s', h', q) == 2
            && var i := Consumed(s', h', q); h'.posted[q][i].cid == h'.posted[q][i + 1].cid
  {
    PostHere(s, h, q);
    HeadsInRingOrder(s, h, q);
    NextIsNewest(s, h, q);
  }

  /** One command pending and its CID next in turn: the next post takes it again. */
  lemma PostAlike(s: State, h: Hist, q: nat) returns (actions: seq<Action>)
    requires ComesRound(s, h, q) && Backlog(s, h, q) == 1 && 3 <= s.sqs[q].entries
    ensures Step(s, Post(q, NOP)).Ok? && Run(s, h, actions) == Crashed(UnknownCommand)
  {
    var a := Post(q, NOP);
    PostRepeats(s, h, q);
    var rest := TwoAlike(Step(s, a).s, Record(s, h, a), q);
    RunOne(s, h, a);
    RunAppend(s, h, [a], rest);
    actions := [a] + rest;
  }

  lemma StillComesRound(s: State, h: Hist, q: nat, s': State, h': Hist)
    requires ComesRound(s, h, q) && Settled(s', h', q)
             && Consumed(s', h', q) == Consumed(s, h, q) + Backlog(s, h, q) - 1
    requires s'.cids == s.cids && h'.posted == h.posted && h'.stamps == h.stamps && h'.allocs == h.allocs
    ensures ComesRound(s', h', q) && Backlog(s', h', q) == 1
  {
  }

  lemma DrainThenPost(s: State, h: Hist, q: nat) returns (actions: seq<Action>)
    requires ComesRound(s, h, q) && 3 <= s.sqs[q].entries
    ensures Run(s, h, actions) == Crashed(UnknownCommand)
  {
    actions := Trips(s, h, q, Backlog(s, h, q) - 1);
    var r := Run(s, h, actions);
    if r.Ended? {
      StillComesRound(s, h, q, r.s, r.h);
      var rest := PostAlike(r.s, r.h, q);
      RunAppend(s, h, actions, rest);
      actions := actions + rest;
    }
  }

  lemma RefusedComesRound(s: State, h: Hist, q: nat, s': State, h': Hist)
    requires Settled(s, h, q) && Backlog(s, h, q) == s.sqs[q].entries - 1 && JustPosted(h, q) && 3 <= s.sqs[q].entries
    requires Attempted(s, h, q, s', h', 0, s.cids.max - s.cids.init - 1)
    ensures ComesRound(s', h', q) && 3 <= s'.sqs[q].entries
  {
    assert h'.stamps[q] == h.stamps[q] && h'.posted[q] == h.posted[q];
  }

  lemma RefuseThenDrain(s: State, h: Hist, q: nat) returns (actions: seq<Action>)
    requires Settled(s, h, q) && Backlog(s, h, q) == s.sqs[q].entries - 1 && JustPosted(h, q) && 3 <= s.sqs[q].entries
    ensures Run(s, h, actions) == Crashed(UnknownCommand)
  {
    assert |h.stamps[q]| == |h.posted[q]|;
    actions := RefusePosts(s, h, q, s.cids.max - s.cids.init - 1);
    var r := Run(s, h, actions);
    RefusedComesRound(s, h, q, r.s, r.h);
    var rest := DrainThenPost(r.s, r.h, q);
    RunAppend(s, h, actions, rest);
    actions := actions + rest;
  }

  /** A run that loses a command: fill the queue, let refused posts use CIDs up until the
      newest command's turn comes again, drain down to that command, post, and poll twice. */
  lemma Reuse(s: State, q: nat) returns (actions: seq<Action>)
    requires Started(s) && q < |s.sqs| && 3 <= s.sqs[q].entries && 2 <= s.cqs[s.cqOf[q]].entries
    ensures QueuesInv(s, NoHist(s)) && Run(s, NoHist(s), actions) == Crashed(UnknownCommand)
  {
    var h := NoHist(s);
    StartInv(s);
    OutKeys(s, h);
    assert Settled(s, h, q) && Backlog(s, h, q) == 0;
    actions := FillQueue(s, h, q);
    var r := Run(s, h, actions);
    var rest := RefuseThenDrain(r.s, r.h, q);
    RunAppend(s, h, actions, rest);
    actions := actions + rest;
  }

  /** Where a run first reuses an outstanding CID. */
  lemma {:induction false} FirstReuse(s: State, h: Hist, actions: seq<Action>) returns (k: nat)
    requires Wired(s) && Tracks(s, h) && !Fresh(s, h, actions)
    ensures k < |actions| && Fresh(s, h, actions[..k])
    ensures var r := Run(s, h, actions[..k]);
            && r.Ended? && Wired(r.s) && Legal(r.s, actions[k])
            && actions[k].Post? && Step(r.s, actions[k]).Ok? && !FreshCid(r.s, actions[k].q)
    decreases |actions|
  {
    if !Allowed(s, actions[0]) {
      k := 0;
    } else {
      StepWired(s, h, actions[0]);
      var s', h' := Step(s, actions[0]).s, Record(s, h, actions[0]);
      var j := FirstReuse(s', h', actions[1..]);
      k := j + 1;
      assert actions[..k][1..] == actions[1..][..j];
    }
  }

  /** Reuse is reachable: a run without any leads to a post that goes through under a CID
      that its SQ has outstanding. */
  lemma ReuseIsReachable(s: State, q: nat) returns (actions: seq<Action>, p: nat, sqe: Sqe)
    requires Started(s) && q < |s.sqs| && 3 <= s.sqs[q].entries && 2 <= s.cqs[s.cqOf[q]].entries
    ensures QueuesInv(s, NoHist(s)) && Fresh(s, NoHist(s), actions)
    ensures var r := Run(s, NoHist(s), actions);
            r.Ended? && Wired(r.s) && p < |r.s.sqs| && PostStep(r.s, p, sqe).Ok? && !FreshCid(r.s, p)
  {
    var all := Reuse(s, q);
    RunsAreSafe(s, all);
    var k := FirstReuse(s, NoHist(s), all);
    actions, p, sqe := all[..k], all[k].q, all[k].sqe;
  }

  // ---- What becomes of the command --------------------------------------------------

  /** The command object that a poll of c completes. */
  ghost function Completing(s: State, c: nat): Option<Command>
    requires Wired(s) && c < |s.cqs|
  {
    var cqe := s.cqs[c].slots[s.cqs[c].head];
    if Ready(s.cqs[c]) && (cqe.cid, cqe.sqid) in s.outstanding then Some(s.outstanding[(cqe.cid, cqe.sqid)]) else None
  }

  /** Commands i and j were posted under one CID; n is the oldest not consumed, and up to i
      nothing else has that CID. */
  ghost predicate Twins(posted: seq<Sqe>, i: nat, j: nat, n: nat) {
    && i < j < |posted| && posted[i].cid == posted[j].cid && n <= j
    && forall k :: n <= k < i ==> posted[k].cid != posted[i].cid
  }

  /** The key stands for that command while it is open, and then for nothing. */
  ghost predicate Keyed(outstanding: map<(nat, nat), Command>, command: Command, isOpen: bool) {
    var key := (command.sqe.cid, command.q);
    (key in outstanding <==> isOpen) && (key in outstanding ==> outstanding[key] == command)
  }

  /** Commands i and j of q went out under one CID. Until i's completion is consumed their key
      stands for j, and then for nothing. */
  ghost predicate Misdirected(s: State, h: Hist, q: nat, i: nat, j: nat) {
    && Sound(s, h) && q < |s.sqs| && Twins(h.posted[q], i, j, Consumed(s, h, q))
    && Keyed(s.outstanding, Command(q, h.posted[q][j]), Consumed(s, h, q) <= i)
  }

  /** Consuming the oldest command, whose key is outstanding. */
  lemma TwinsConsumed(posted: seq<Sqe>, i: nat, j: nat, n: nat, q: nat, outstanding: map<(nat, nat), Command>)
    requires Twins(posted, i, j, n) && Keyed(outstanding, Command(q, posted[j]), n <= i)
    requires (posted[n].cid, q) in outstanding
    ensures Twins(posted, i, j, n + 1)
    ensures Keyed(outstanding - {(posted[n].cid, q)}, Command(q, posted[j]), n + 1 <= i)
  {
  }

  lemma PollMisdirected(s: State, h: Hist, c: nat, q: nat, i: nat, j: nat)
    requires Misdirected(s, h, q, i, j) && c < |s.cqs| && PollStep(s, c).Ok?
    ensures Misdirected(PollStep(s, c).s, Record(s, h, Poll(c)), q, i, j)
  {
    StepSound(s, h, Poll(c));
    PollFinds(s, h, c);
    PollIsConsuming(s, h, c);
    if Ready(s.cqs[c]) {
      PollCounts(s, h, c, q);
      if h.comps[c][h.consumed[c]].sqid == q {
        TwinsConsumed(h.posted[q], i, j, Consumed(s, h, q), q, s.outstanding);
      }
    }
  }

  lemma RestMisdirected(s: State, h: Hist, a: Action, q: nat, i: nat, j: nat)
    requires Misdirected(s, h, q, i, j) && Legal(s, a) && !a.Poll? && (a.Post? ==> a.q != q) && !Step(s, a).Crash?
    ensures Misdirected(Step(s, a).s, Record(s, h, a), q, i, j)
  {
    StepSound(s, h, a);
    RestConsumes(s, h, a, q);
    RestKeepsKey(s, h, a, Command(q, h.posted[q][j]), Consumed(s, h, q) <= i);
  }

  lemma RestKeepsKey(s: State, h: Hist, a: Action, command: Command, isOpen: bool)
    requires Wired(s) && Tracks(s, h) && command.q < |s.sqs|
    requires Legal(s, a) && !a.Poll? && (a.Post? ==> a.q != command.q) && !Step(s, a).Crash?
    requires Keyed(s.outstanding, command, isOpen)
    ensures Keyed(Step(s, a).s.outstanding, command, isOpen)
    ensures Record(s, h, a).posted[command.q] == h.posted[command.q]
  {
  }

  /** That lasts, whatever happens short of another post to q. */
  lemma {:induction false} RunMisdirected(s: State, h: Hist, actions: seq<Action>, q: nat, i: nat, j: nat)
    requires Misdirected(s, h, q, i, j)
    requires forall k :: 0 <= k < |actions| && actions[k].Post? ==> actions[k].q != q
    ensures var r := Run(s, h, actions); r.Ended? ==> Misdirected(r.s, r.h, q, i, j) && r.h.posted[q] == h.posted[q]
    decreases |actions|
  {
    if actions != [] && Legal(s, actions[0]) && !Step(s, actions[0]).Crash? {
      if actions[0].Poll? {
        PollMisdirected(s, h, actions[0].c, q, i, j);
      } else {
        RestMisdirected(s, h, actions[0], q, i, j);
      }
      RunMisdirected(Step(s, actions[0]).s, Record(s, h, actions[0]), actions[1..], q, i, j);
    }
  }

  /** A post under an outstanding CID makes its key stand for the new command. */
  lemma StalePost(s: State, h: Hist, q: nat, sqe: Sqe) returns (i: nat)
    requires Sound(s, h) && OutInv(s, h) && q < |s.sqs| && PostStep(s, q, sqe).Ok? && !FreshCid(s, q)
    ensures Pending(s, h, q, i) && h.posted[q][i].cid == s.cids.value
    ensures Misdirected(PostStep(s, q, sqe).s, Record(s, h, Post(q, sqe)), q, i, |h.posted[q]|)
  {
    i :| Pending(s, h, q, i) && h.posted[q][i].cid == s.cids.value;
    StepSound(s, h, Post(q, sqe));
    RestConsumes(s, h, Post(q, sqe), q);
    StaleTwins(s, h, q, sqe.(cid := s.cids.value), i);
  }

  lemma StaleTwins(s: State, h: Hist, q: nat, entry: Sqe, i: nat)
    requires Wired(s) && Tracks(s, h) && PendingDistinct(s, h) && Pending(s, h, q, i) && h.posted[q][i].cid == entry.cid
    ensures Twins(h.posted[q] + [entry], i, |h.posted[q]|, Consumed(s, h, q))
  {
    forall k | Consumed(s, h, q) <= k < i
      ensures h.posted[q][k].cid != h.posted[q][i].cid
    {
      assert Pending(s, h, q, k);
    }
  }

  /** What the polls on q's CQ do meanwhile: the entry of command i completes the object of
      command j, and the entry of j itself finds nobody. */
  lemma PollsMisdirected(s: State, h: Hist, q: nat, i: nat, j: nat)
    requires Misdirected(s, h, q, i, j)
    ensures var c := s.cqOf[q];
            Ready(s.cqs[c]) && PolledSqid(s, c) == q ==>
              && (Consumed(s, h, q) == i ==> Completing(s, c) == Some(Command(q, h.posted[q][j])))
              && (Consumed(s, h, q) == j ==> PollStep(s, c) == Crash(UnknownCommand))
  {
    PollFinds(s, h, s.cqOf[q]);
    PollIsConsuming(s, h, s.cqOf[q]);
  }

  /** The SQID of the entry at the head of c. */
  function PolledSqid(s: State, c: nat): nat
    requires c < |s.cqs| && CqWired(s.cqs[c])
  {
    s.cqs[c].slots[s.cqs[c].head].sqid
  }

  /** A command posted under a CID its SQ has outstanding, in any run that posts nothing more
      to that SQ. The completion of the older command i is delivered to the newer one, j,
      whether the device has handled that yet or not: the poll that consumes i's entry completes
      the object of j. The older object is never completed, since their key never stands for
      it again. And no run gets past j's own entry: the poll that finds it raises. */
  lemma StaleMisdelivers(s: State, h: Hist, q: nat, sqe: Sqe, actions: seq<Action>) returns (i: nat)
    requires Sound(s, h) && OutInv(s, h) && q < |s.sqs| && PostStep(s, q, sqe).Ok? && !FreshCid(s, q)
    requires forall k :: 0 <= k < |actions| && actions[k].Post? ==> actions[k].q != q
    ensures Pending(s, h, q, i) && h.posted[q][i].cid == s.cids.value
    ensures var s1, h1 := PostStep(s, q, sqe).s, Record(s, h, Post(q, sqe));
            && Wired(s1) && Tracks(s1, h1)
            && var r := Run(s1, h1, actions);
            r.Ended? ==> Misdelivers(r.s, r.h, q, i, |h.posted[q]|, s.cqOf[q], Command(q, sqe.(cid := s.cids.value)))
  {
    i := StalePost(s, h, q, sqe);
    var s1, h1 := PostStep(s, q, sqe).s, Record(s, h, Post(q, sqe));
    var r := Run(s1, h1, actions);
    if r.Ended? {
      RunMisdirected(s1, h1, actions, q, i, |h.posted[q]|);
      RunKeepsShape(s1, h1, actions);
      PollsMisdirected(r.s, r.h, q, i, |h.posted[q]|);
    }
  }

  /** `newer` is command j of q, posted under the CID of i; c is their CQ. Their key stands for
      it until i's entry is consumed, and for nothing afterwards. A poll of i's entry completes
      it. Its own entry is never consumed: the poll that finds that raises. */
  ghost predicate Misdelivers(s: State, h: Hist, q: nat, i: nat, j: nat, c: nat, newer: Command) {
    && Wired(s) && Tracks(s, h) && q < |s.sqs| && s.cqOf[q] == c && c < |s.cqs| && Consumed(s, h, q) <= j
    && Keyed(s.outstanding, newer, Consumed(s, h, q) <= i)
    && (Ready(s.cqs[c]) && PolledSqid(s, c) == q ==>
          && (Consumed(s, h, q) == i ==> Completing(s, c) == Some(newer))
          && (Consumed(s, h, q) == j ==> PollStep(s, c) == Crash(UnknownCommand)))
  }

  // ---- And when not -----------------------------------------------------------------

  /** No SQ can hold two commands, unless its CQ can never take a completion. */
  ghost predicate Small(s: State)
    requires Wired(s)
  {
    forall q :: 0 <= q < |s.sqs| && 2 <= s.cqs[s.cqOf[q]].entries ==> s.sqs[q].entries <= 2
  }

  /** The pending command of such an SQ is outstanding. */
  ghost predicate NewestKnown(s: State, h: Hist, q: nat)
    requires Wired(s) && Tracks(s, h) && q < |s.sqs|
  {
    Consumed(s, h, q) < |h.posted[q]| ==> (h.posted[q][|h.posted[q]| - 1].cid, q) in s.outstanding
  }

  ghost predicate Tame(s: State, h: Hist) {
    Sound(s, h) && Small(s) && forall q :: 0 <= q < |s.sqs| && s.sqs[q].entries <= 2 ==> NewestKnown(s, h, q)
  }

  lemma TamePoll(s: State, h: Hist, c: nat)
    requires Tame(s, h) && c < |s.cqs|
    ensures PollStep(s, c).Ok?
    ensures forall q :: 0 <= q < |s.sqs| && s.sqs[q].entries <= 2 ==>
              Wired(PollStep(s, c).s) && Tracks(PollStep(s, c).s, Record(s, h, Poll(c)))
                  && |PollStep(s, c).s.sqs| == |s.sqs|
              && NewestKnown(PollStep(s, c).s, Record(s, h, Poll(c)), q)
  {
    PollFinds(s, h, c);
    PollIsConsuming(s, h, c);
    if Ready(s.cqs[c]) {
      PollTames(s, h, c);
      StepWired(s, h, Poll(c));
      forall q | 0 <= q < |s.sqs| && s.sqs[q].entries <= 2
        ensures NewestKnown(PollStep(s, c).s, Record(s, h, Poll(c)), q)
      {
        TamePollAt(s, h, c, q);
      }
    }
  }

  /** The completion a poll finds is that of its SQ's only pending command. */
  lemma PollTames(s: State, h: Hist, c: nat)
    requires Tame(s, h) && c < |s.cqs| && Ready(s.cqs[c])
    ensures PollStep(s, c).Ok?
  {
    PollFinds(s, h, c);
    PollIsConsuming(s, h, c);
    var p := h.comps[c][h.consumed[c]].sqid;
    assert CqInv(s.cqs[c], h.comps[c], h.consumed[c]);
    assert SqInv(s.sqs[p], h.posted[p], Fetched(s, h, p), Consumed(s, h, p));
    assert NewestKnown(s, h, p);
  }

  lemma TamePollAt(s: State, h: Hist, c: nat, q: nat)
    requires Tame(s, h) && c < |s.cqs| && Ready(s.cqs[c]) && PollStep(s, c).Ok?
    requires q < |s.sqs| && s.sqs[q].entries <= 2
    ensures var s', h' := PollStep(s, c).s, Record(s, h, Poll(c));
            Wired(s') && Tracks(s', h') && |s'.sqs| == |s.sqs| && NewestKnown(s', h', q)
  {
    PollFinds(s, h, c);
    PollIsConsuming(s, h, c);
    PollCounts(s, h, c, q);
    assert NewestKnown(s, h, q);
    assert SqInv(s.sqs[q], h.posted[q], Fetched(s, h, q), Consumed(s, h, q));
  }

  /** No step but a poll consumes anything. */
  lemma RestConsumes(s: State, h: Hist, a: Action, q: nat)
    requires Wired(s) && Tracks(s, h) && Legal(s, a) && !a.Poll? && !Step(s, a).Crash? && q < |s.sqs|
    ensures var s', h' := Step(s, a).s, Record(s, h, a);
            Wired(s') && Tracks(s', h') && |s'.sqs| == |s.sqs| && Consumed(s', h', q) == Consumed(s, h, q)
  {
    StepWired(s, h, a);
    var c := s.cqOf[q];
    assert Record(s, h, a).comps[c][..h.consumed[c]] == h.comps[c][..h.consumed[c]];
  }

  lemma TameRestAt(s: State, h: Hist, a: Action, q: nat)
    requires Wired(s) && Tracks(s, h) && Legal(s, a) && !a.Poll? && !Step(s, a).Crash? && q < |s.sqs|
    requires SqInv(s.sqs[q], h.posted[q], Fetched(s, h, q), Consumed(s, h, q))
    requires NewestKnown(s, h, q)
    ensures var s', h' := Step(s, a).s, Record(s, h, a);
            Wired(s') && Tracks(s', h') && |s'.sqs| == |s.sqs| && NewestKnown(s', h', q)
  {
    RestConsumes(s, h, a, q);
  }

  lemma TameRest(s: State, h: Hist, a: Action)
    requires Tame(s, h) && Legal(s, a) && !a.Poll? && !Step(s, a).Crash?
    ensures var s', h' := Step(s, a).s, Record(s, h, a);
            && Wired(s') && Tracks(s', h') && |s'.sqs| == |s.sqs|
            && forall q :: 0 <= q < |s.sqs| && s.sqs[q].entries <= 2 ==> NewestKnown(s', h', q)
  {
    StepWired(s, h, a);
    forall q | 0 <= q < |s.sqs| && s.sqs[q].entries <= 2
      ensures NewestKnown(Step(s, a).s, Record(s, h, a), q)
    {
      TameRestAt(s, h, a, q);
    }
  }

  lemma StepTame(s: State, h: Hist, a: Action)
    requires Tame(s, h) && Legal(s, a)
    ensures Step(s, a) != Crash(UnknownCommand)
    ensures !Step(s, a).Crash? ==> Tame(Step(s, a).s, Record(s, h, a))
  {
    StepSound(s, h, a);
    if a.Poll? {
      TamePoll(s, h, a.c);
    } else if !Step(s, a).Crash? {
      TameRest(s, h, a);
    }
    if !Step(s, a).Crash? {
      StepWired(s, h, a);
    }
  }

  lemma {:induction false} RunTame(s: State, h: Hist, actions: seq<Action>)
    requires Tame(s, h)
    ensures Run(s, h, actions) != Crashed(UnknownCommand)
    decreases |actions|
  {
    if actions != [] && Legal(s, actions[0]) {
      StepTame(s, h, actions[0]);
      if !Step(s, actions[0]).Crash? {
        RunTame(Step(s, actions[0]).s, Record(s, h, actions[0]), actions[1..]);
      }
    }
  }

  /** A poll can meet an unknown command in some run if and only if some SQ has room for two
      commands and its CQ for a completion, however many CIDs there are: refused posts use
      them up too. */
  lemma LossIsExact(s: State)
    requires Started(s)
    ensures QueuesInv(s, NoHist(s))
    ensures (exists actions :: Run(s, NoHist(s), actions) == Crashed(UnknownCommand))
            <==> exists q :: 0 <= q < |s.sqs| && 3 <= s.sqs[q].entries && 2 <= s.cqs[s.cqOf[q]].entries
  {
    RunsAreSafe(s, []);
    if q :| 0 <= q < |s.sqs| && 3 <= s.sqs[q].entries && 2 <= s.cqs[s.cqOf[q]].entries {
      var actions := Reuse(s, q);
      assert Run(s, NoHist(s), actions) == Crashed(UnknownCommand);
    } else {
      OutKeys(s, NoHist(s)) by {
        StartInv(s);
      }
      forall actions
        ensures Run(s, NoHist(s), actions) != Crashed(UnknownCommand)
      {
        RunTame(s, NoHist(s), actions);
      }
    }
  }
}
