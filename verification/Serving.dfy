/** Device turns: fetching a command, handling it and completing it before the next fetch. */
module Serving {
  import opened Options
  import opened Ring
  import opened Protocol
  import opened ProtocolSafety
  import opened Conservation
  import opened Statuses
  import opened RoundRobin

  /** `num_entries` of the device's queue object. */
  function Waiting(sq: Sq): nat
    requires SqWired(sq)
  {
    NumEntries(sq.devHead, sq.tail, sq.entries)
  }

  ghost predicate Resting(s: State) {
    Wired(s) && s.flight.Idle?
  }

  /** How turns of the device end: all served, or with an exception and the state it leaves. */
  datatype Service = Served(s: State) | Broken(fault: Fault, s: State)

  /** What an exception in a handler leaves: the command is fetched and never completed. */
  function Dropped(s: State): State {
    s.(flight := Idle)
  }

  /** The handler of the command in the device's hands, with the status it comes to. */
  ghost function HandleStep(s: State, sc: Option<nat>): (r: Service)
    requires Wired(s) && s.flight.Busy?
    ensures Resting(r.s) && r.s.sqs == s.sqs
  {
    if sc.None? then Broken(HandlerRaised, Dropped(s))
    else
      var done := CompleteStep(s, sc.value);
      if done.Crash? then Broken(done.fault, Dropped(s)) else Served(done.s)
  }

  /** One turn on SQ q; `status` is what the handler makes of the command, None an exception.
      Nothing happens when no command is waiting. */
  ghost function ServeOne(s: State, q: nat, status: Sqe -> Option<nat>): (r: Service)
    requires Resting(s) && q < |s.sqs|
    ensures Resting(r.s) && |r.s.sqs| == |s.sqs|
  {
    var fetched := FetchStep(s, q).s;
    if fetched.flight.Idle? then Served(fetched)
    else
      HandleStep(fetched, status(fetched.sqs[q].slots[fetched.flight.slot]))
  }

  ghost predicate AllBelow(served: seq<nat>, n: nat) {
    forall k :: 0 <= k < |served| ==> served[k] < n
  }

  /** Turns on the listed queues, in order, up to the first exception. */
  ghost function Serve(s: State, served: seq<nat>, status: Sqe -> Option<nat>): (r: Service)
    requires Resting(s) && AllBelow(served, |s.sqs|)
    ensures Resting(r.s) && |r.s.sqs| == |s.sqs|
  {
    if served == [] then Served(s)
    else
      var prior := Serve(s, served[..|served| - 1], status);
      if prior.Broken? then prior else ServeOne(prior.s, served[|served| - 1], status)
  }

  lemma ServeSnoc(s: State, served: seq<nat>, q: nat, status: Sqe -> Option<nat>)
    requires Resting(s) && q < |s.sqs| && AllBelow(served, |s.sqs|)
    ensures AllBelow(served + [q], |s.sqs|)
    ensures var prior := Serve(s, served, status);
            Serve(s, served + [q], status) == if prior.Broken? then prior else ServeOne(prior.s, q, status)
  {
    assert (served + [q])[..|served|] == served;
  }

  /** After an exception the rest of a schedule makes no difference. */
  lemma {:induction false} BrokenStays(s: State, served: seq<nat>, longer: seq<nat>, status: Sqe -> Option<nat>)
    requires Resting(s) && AllBelow(longer, |s.sqs|) && served <= longer
    requires AllBelow(served, |s.sqs|) && Serve(s, served, status).Broken?
    ensures Serve(s, longer, status) == Serve(s, served, status)
  {
    if served != longer {
      BrokenStays(s, served, longer[..|longer| - 1], status);
    }
  }

  /** A turn takes one command off its own queue and none off any other. */
  lemma ServeOneWaiting(s: State, q: nat, status: Sqe -> Option<nat>, p: nat)
    requires Resting(s) && q < |s.sqs| && p < |s.sqs|
    ensures var n := Waiting(s.sqs[p]);
            Waiting(ServeOne(s, q, status).s.sqs[p]) == if p == q && n > 0 then n - 1 else n
    ensures Waiting(s.sqs[q]) == 0 ==> ServeOne(s, q, status) == Served(s)
  {
    var fetched := FetchStep(s, q).s;
    assert ServeOne(s, q, status).s.sqs == fetched.sqs;
  }

  /** The turns that complete into c. */
  ghost function Onto(s: State, served: seq<nat>, c: nat): seq<nat>
    requires Wired(s) && AllBelow(served, |s.sqs|)
  {
    if served == [] then []
    else
      var q := served[|served| - 1];
      Onto(s, served[..|served| - 1], c) + (if s.cqOf[q] == c then [q] else [])
  }

  ghost function SqidsOf(comps: seq<Cqe>): seq<nat> {
    seq(|comps|, i requires 0 <= i < |comps| => comps[i].sqid)
  }

  /** What serving the given turns changes: nothing on the host's side, and each completion
      queue receives its turns in their order. */
  ghost predicate Effect(s: State, h: Hist, s': State, h': Hist, served: seq<nat>)
    requires Wired(s) && AllBelow(served, |s.sqs|)
  {
    && s'.cqOf == s.cqOf && s'.outstanding == s.outstanding && |s'.sqs| == |s.sqs|
    && h'.posted == h.posted && h'.consumed == h.consumed && |h'.comps| == |h.comps|
    && (forall c :: 0 <= c < |h.comps| ==> h.comps[c] <= h'.comps[c])
    && forall c :: 0 <= c < |h.comps| ==> SqidsOf(h'.comps[c]) == SqidsOf(h.comps[c]) + Onto(s, served, c)
  }

  lemma EffectSnoc(s: State, h: Hist, s1: State, h1: Hist, s2: State, h2: Hist, served: seq<nat>)
    requires Wired(s) && AllBelow(served, |s.sqs|) && served != [] && Wired(s1)
    requires Effect(s, h, s1, h1, served[..|served| - 1])
    requires Effect(s1, h1, s2, h2, [served[|served| - 1]])
    ensures Effect(s, h, s2, h2, served)
  {
    var q := served[|served| - 1];
    forall c | 0 <= c < |h.comps|
      ensures SqidsOf(h2.comps[c]) == SqidsOf(h.comps[c]) + Onto(s, served, c)
    {
      OntoOne(s1, q, c);
    }
  }

  lemma {:induction false} SameOnto(s: State, t: State, served: seq<nat>)
    requires Wired(s) && Wired(t) && AllBelow(served, |s.sqs|) && s.cqOf == t.cqOf
    ensures forall c :: Onto(s, served, c) == Onto(t, served, c)
  {
    if served != [] {
      SameOnto(s, t, served[..|served| - 1]);
    }
  }

  lemma CompleteEffect(s: State, h: Hist, sc: nat)
    requires Wired(s) && Tracks(s, h) && s.flight.Busy? && CompleteStep(s, sc).Ok?
    ensures Effect(s, h, CompleteStep(s, sc).s, Record(s, h, Complete(sc)), [s.flight.q])
  {
    var q, h' := s.flight.q, Record(s, h, Complete(sc));
    forall c | 0 <= c < |h.comps|
      ensures h.comps[c] <= h'.comps[c] && SqidsOf(h'.comps[c]) == SqidsOf(h.comps[c]) + Onto(s, [q], c)
    {
      OntoOne(s, q, c);
      if c == s.cqOf[q] {
        SqidsSnoc(h.comps[c], h'.comps[c][|h.comps[c]|]);
      }
    }
  }

  lemma SqidsSnoc(t: seq<Cqe>, x: Cqe)
    ensures SqidsOf(t + [x]) == SqidsOf(t) + [x.sqid]
  {
  }

  lemma OntoOne(s: State, q: nat, c: nat)
    requires Wired(s) && q < |s.sqs|
    ensures Onto(s, [q], c) == if s.cqOf[q] == c then [q] else []
  {
    assert [q][..0] == [];
  }

  /** The command that turn number i on SQ q takes, counted from now. */
  ghost function Taken(s: State, h: Hist, q: nat, i: nat): Sqe
    requires Wired(s) && Tracks(s, h) && q < |s.sqs| && Completed(s, h, q) + i < |h.posted[q]|
  {
    h.posted[q][Completed(s, h, q) + i]
  }

  /** The command in the device's hands after a fetch is the next one not completed. */
  lemma FetchTakes(s: State, h: Hist, q: nat)
    requires QueuesInv(s, h) && s.flight.Idle? && q < |s.sqs| && Waiting(s.sqs[q]) > 0
    ensures Completed(s, h, q) < |h.posted[q]|
    ensures var fetched := FetchStep(s, q).s;
            && fetched.flight == Busy(q, s.sqs[q].devHead)
            && fetched.sqs[q].slots[fetched.flight.slot] == Taken(s, h, q, 0)
  {
    WaitingExact(s, h, q);
    FetchQueues(s, h, q);
    FlightReadsFetched(FetchStep(s, q).s, h);
  }

  /** A turn on a queue with a command waiting, unfolded. */
  lemma ServeOneIs(s: State, q: nat, status: Sqe -> Option<nat>)
    requires Resting(s) && q < |s.sqs| && Waiting(s.sqs[q]) > 0
    ensures var fetched := FetchStep(s, q).s;
            && Wired(fetched) && fetched.flight == Busy(q, s.sqs[q].devHead) && fetched.cqOf == s.cqOf
            && |fetched.sqs| == |s.sqs| && fetched.outstanding == s.outstanding
            && ServeOne(s, q, status) == HandleStep(fetched, status(fetched.sqs[q].slots[fetched.flight.slot]))
  {
  }

  /** The turn of q is complete with status sc. */
  ghost predicate TurnEnds(s: State, h: Hist, q: nat, fetched: State, sc: nat, status: Sqe -> Option<nat>, h': Hist)
    requires Wired(s) && q < |s.sqs|
  {
    && Wired(fetched) && fetched.flight.Busy? && CompleteStep(fetched, sc).Ok?
    && Inv(CompleteStep(fetched, sc).s, h') && Effect(s, h, CompleteStep(fetched, sc).s, h', [q])
    && CodedSince(h, h', status)
  }

  lemma HeldCompletes(s: State, h: Hist, sc: nat, status: Sqe -> Option<nat>) returns (h': Hist)
    requires Inv(s, h) && s.flight.Busy? && status(InHand(s)) == Some(sc)
    ensures TurnEnds(s, h, s.flight.q, s, sc, status, h')
  {
    CompleteKeeps(s, h, sc);
    h' := Record(s, h, Complete(sc));
    CompleteEffect(s, h, sc);
    CompleteCoded(s, h, sc, status);
  }

  lemma SameTurn(s: State, h: Hist, q: nat, fetched: State, sc: nat, status: Sqe -> Option<nat>, h': Hist)
    requires Wired(s) && q < |s.sqs| && q < |fetched.sqs|
    requires Wired(fetched) && TurnEnds(fetched, h, q, fetched, sc, status, h')
    requires fetched.cqOf == s.cqOf && fetched.outstanding == s.outstanding && |fetched.sqs| == |s.sqs|
    ensures TurnEnds(s, h, q, fetched, sc, status, h')
  {
    SameEffect(s, fetched, h, CompleteStep(fetched, sc).s, h', [q]);
  }

  /** A fetch and a completion. */
  lemma CompletesTurn(s: State, h: Hist, q: nat, sc: nat, status: Sqe -> Option<nat>) returns (h': Hist)
    requires Inv(s, h) && s.flight.Idle? && q < |s.sqs| && Waiting(s.sqs[q]) > 0
    requires Completed(s, h, q) < |h.posted[q]| && status(Taken(s, h, q, 0)) == Some(sc)
    ensures TurnEnds(s, h, q, FetchStep(s, q).s, sc, status, h')
  {
    FetchKeeps(s, h, q);
    FetchTakes(s, h, q);
    h' := HeldCompletes(FetchStep(s, q).s, h, sc, status);
    SameTurn(s, h, q, FetchStep(s, q).s, sc, status, h');
  }

  /** Under the invariant a turn on a queue with a waiting command goes through if and only if
      the handler does not raise; it then adds one completion, with the id of that queue and the
      status of the command. */
  lemma ServeOneKeeps(s: State, h: Hist, q: nat, status: Sqe -> Option<nat>) returns (h': Hist)
    requires Inv(s, h) && s.flight.Idle? && q < |s.sqs| && Waiting(s.sqs[q]) > 0
    ensures Completed(s, h, q) < |h.posted[q]|
    ensures var o := ServeOne(s, q, status);
            if status(Taken(s, h, q, 0)).Some?
            then o.Served? && Inv(o.s, h') && Effect(s, h, o.s, h', [q]) && CodedSince(h, h', status)
            else o == Broken(HandlerRaised, Dropped(FetchStep(s, q).s))
  {
    h' := h;
    FetchTakes(s, h, q);
    if status(Taken(s, h, q, 0)).Some? {
      h' := ServeOneDone(s, h, q, status);
    } else {
      ServeOneIs(s, q, status);
    }
  }

  lemma ServeOneDone(s: State, h: Hist, q: nat, status: Sqe -> Option<nat>) returns (h': Hist)
    requires Inv(s, h) && s.flight.Idle? && q < |s.sqs| && Waiting(s.sqs[q]) > 0
    requires Completed(s, h, q) < |h.posted[q]| && status(Taken(s, h, q, 0)).Some?
    ensures var o := ServeOne(s, q, status); o.Served? && Inv(o.s, h') && Effect(s, h, o.s, h', [q])
    ensures CodedSince(h, h', status)
  {
    ServeOneCompletes(s, h, q, status);
    h' := CompletesTurn(s, h, q, status(Taken(s, h, q, 0)).value, status);
  }

  lemma ServeOneCompletes(s: State, h: Hist, q: nat, status: Sqe -> Option<nat>)
    requires QueuesInv(s, h) && s.flight.Idle? && q < |s.sqs| && Waiting(s.sqs[q]) > 0
    requires Completed(s, h, q) < |h.posted[q]| && status(Taken(s, h, q, 0)).Some?
    ensures var fetched, sc := FetchStep(s, q).s, status(Taken(s, h, q, 0)).value;
            && Wired(fetched) && fetched.flight.Busy?
            && (CompleteStep(fetched, sc).Ok? ==> ServeOne(s, q, status) == Served(CompleteStep(fetched, sc).s))
  {
    FetchTakes(s, h, q);
    ServeOneIs(s, q, status);
  }

  lemma SameEffect(s: State, t: State, h: Hist, s': State, h': Hist, served: seq<nat>)
    requires Wired(s) && Wired(t) && AllBelow(served, |s.sqs|) && t.cqOf == s.cqOf && t.outstanding == s.outstanding
    requires |t.sqs| == |s.sqs| && Effect(t, h, s', h', served)
    ensures Effect(s, h, s', h', served)
  {
    SameOnto(s, t, served);
  }

  /** No queue is served more often than it has commands waiting. */
  ghost predicate Enough(s: State, served: seq<nat>)
    requires Wired(s)
  {
    AllBelow(served, |s.sqs|) && forall q :: 0 <= q < |s.sqs| ==> Times(served, q) <= Waiting(s.sqs[q])
  }

  lemma EnoughPrefix(s: State, served: seq<nat>)
    requires Wired(s) && Enough(s, served) && served != []
    ensures Enough(s, served[..|served| - 1])
  {
    forall q | 0 <= q < |s.sqs|
      ensures Times(served[..|served| - 1], q) <= Times(served, q)
    {
    }
  }

  lemma {:induction false} ServeWaiting(s: State, served: seq<nat>, status: Sqe -> Option<nat>, p: nat)
    requires Resting(s) && Enough(s, served) && Serve(s, served, status).Served? && p < |s.sqs|
    ensures Waiting(Serve(s, served, status).s.sqs[p]) == Waiting(s.sqs[p]) - Times(served, p)
  {
    if served != [] {
      var q := served[|served| - 1];
      EnoughPrefix(s, served);
      ServeWaiting(s, served[..|served| - 1], status, p);
      ServeOneWaiting(Serve(s, served[..|served| - 1], status).s, q, status, p);
      assert Times(served, q) <= Waiting(s.sqs[q]);
    }
  }

  /** No handler raises on the command that turn k of the schedule takes. */
  ghost predicate TurnHandled(s: State, h: Hist, served: seq<nat>, status: Sqe -> Option<nat>, k: nat)
    requires Wired(s) && Tracks(s, h) && AllBelow(served, |s.sqs|) && k < |served|
  {
    var q, i := served[k], Times(served[..k], served[k]);
    Completed(s, h, q) + i < |h.posted[q]| && status(Taken(s, h, q, i)).Some?
  }

  /** Nor on any other that it takes. */
  ghost predicate Handled(s: State, h: Hist, served: seq<nat>, status: Sqe -> Option<nat>)
    requires Wired(s) && Tracks(s, h) && AllBelow(served, |s.sqs|)
  {
    forall k :: 0 <= k < |served| ==> TurnHandled(s, h, served, status, k)
  }

  lemma HandledSnoc(s: State, h: Hist, served: seq<nat>, status: Sqe -> Option<nat>)
    requires Wired(s) && Tracks(s, h) && AllBelow(served, |s.sqs|) && served != []
    ensures var n := |served| - 1;
            Handled(s, h, served, status) <==>
            Handled(s, h, served[..n], status) && TurnHandled(s, h, served, status, n)
  {
    var n := |served| - 1;
    forall k | 0 <= k < n
      ensures TurnHandled(s, h, served[..n], status, k) <==> TurnHandled(s, h, served, status, k)
    {
      assert served[..n][..k] == served[..k];
    }
  }

  /** Under the invariant the device serves a schedule it has commands for if and only if no
      handler raises on the commands it takes; each completion queue then receives its turns
      in the order of the schedule. */
  lemma {:induction false} ServeKeeps(s: State, h: Hist, served: seq<nat>, status: Sqe -> Option<nat>)
    returns (h': Hist)
    requires Inv(s, h) && s.flight.Idle? && Enough(s, served)
    ensures Serve(s, served, status).Served? <==> Handled(s, h, served, status)
    ensures Handled(s, h, served, status) ==> Through(s, h, served, status, Serve(s, served, status).s, h')
    ensures Serve(s, served, status).Broken? ==> Serve(s, served, status).fault == HandlerRaised
  {
    if served == [] {
      h' := h;
    } else {
      var n := |served| - 1;
      EnoughPrefix(s, served);
      HandledSnoc(s, h, served, status);
      var g := ServeKeeps(s, h, served[..n], status);
      h' := g;
      if Handled(s, h, served[..n], status) {
        h' := ServeLast(s, h, g, served, status);
      }
    }
  }

  /** The device has completed k commands of p since. */
  ghost predicate Moved(s: State, h: Hist, s': State, h': Hist, p: nat, k: nat)
    requires Wired(s) && Tracks(s, h) && p < |s.sqs|
  {
    && Wired(s') && Tracks(s', h') && |s'.sqs| == |s.sqs| && h'.posted == h.posted
    && Completed(s', h', p) == Completed(s, h, p) + k
  }

  ghost predicate AllMoved(s: State, h: Hist, s': State, h': Hist, served: seq<nat>)
    requires Wired(s) && Tracks(s, h)
  {
    forall p :: 0 <= p < |s.sqs| ==> Moved(s, h, s', h', p, Times(served, p))
  }

  /** The schedule went through, from s to s'. */
  ghost predicate Through(s: State, h: Hist, served: seq<nat>, status: Sqe -> Option<nat>, s': State, h': Hist)
    requires Wired(s) && Tracks(s, h) && AllBelow(served, |s.sqs|)
  {
    && Inv(s', h') && Effect(s, h, s', h', served) && AllMoved(s, h, s', h', served)
    && CodedSince(h, h', status)
  }

  lemma ServeLast(s: State, h: Hist, g: Hist, served: seq<nat>, status: Sqe -> Option<nat>) returns (h': Hist)
    requires Inv(s, h) && s.flight.Idle? && Enough(s, served) && served != []
    requires var first := served[..|served| - 1];
             var o := Serve(s, first, status);
             o.Served? && Through(s, h, first, status, o.s, g)
    ensures var o := Serve(s, served, status);
            && (o.Served? <==> TurnHandled(s, h, served, status, |served| - 1))
            && (o.Served? ==> Through(s, h, served, status, o.s, h'))
            && (o.Broken? ==> o.fault == HandlerRaised)
  {
    var q, s1 := served[|served| - 1], Serve(s, served[..|served| - 1], status).s;
    TurnTakes(s, h, g, served, status);
    h' := ServeNext(s, h, served, s1, g, status);
  }

  /** One more turn, on the last queue of the schedule. */
  lemma ServeNext(s: State, h: Hist, served: seq<nat>, s1: State, g: Hist, status: Sqe -> Option<nat>)
    returns (h': Hist)
    requires Wired(s) && Tracks(s, h) && AllBelow(served, |s.sqs|) && served != []
    requires Through(s, h, served[..|served| - 1], status, s1, g) && s1.flight.Idle?
    requires var q := served[|served| - 1];
             && q < |s1.sqs| && Waiting(s1.sqs[q]) > 0 && g.posted == h.posted
             && Completed(s1, g, q) == Completed(s, h, q) + Times(served[..|served| - 1], q)
    ensures var o := ServeOne(s1, served[|served| - 1], status);
            && (o.Served? <==> TurnHandled(s, h, served, status, |served| - 1))
            && (o.Served? ==> Through(s, h, served, status, o.s, h'))
            && (o.Broken? ==> o.fault == HandlerRaised)
  {
    var q := served[|served| - 1];
    h' := ServeOneKeeps(s1, g, q, status);
    TakenNext(s, h, served, s1, g, status);
    if status(Taken(s1, g, q, 0)).Some? {
      ThroughSnoc(s, h, served, status, s1, g, ServeOne(s1, q, status).s, h');
    }
  }

  lemma TakenNext(s: State, h: Hist, served: seq<nat>, s1: State, g: Hist, status: Sqe -> Option<nat>)
    requires Wired(s) && Tracks(s, h) && AllBelow(served, |s.sqs|) && served != [] && Wired(s1) && Tracks(s1, g)
    requires var q := served[|served| - 1];
             && q < |s1.sqs| && g.posted == h.posted && Completed(s1, g, q) < |g.posted[q]|
             && Completed(s1, g, q) == Completed(s, h, q) + Times(served[..|served| - 1], q)
    ensures TurnHandled(s, h, served, status, |served| - 1) <==> status(Taken(s1, g, served[|served| - 1], 0)).Some?
  {
  }

  /** The last turn of a schedule finds its command waiting. */
  lemma TurnTakes(s: State, h: Hist, g: Hist, served: seq<nat>, status: Sqe -> Option<nat>)
    requires Inv(s, h) && s.flight.Idle? && Enough(s, served) && served != []
    requires var first := served[..|served| - 1];
             var o := Serve(s, first, status);
             o.Served? && Through(s, h, first, status, o.s, g)
    ensures var q, s1 := served[|served| - 1], Serve(s, served[..|served| - 1], status).s;
            var i := Times(served[..|served| - 1], q);
            && s1.flight.Idle? && q < |s1.sqs| == |s.sqs| && Waiting(s1.sqs[q]) > 0
            && Completed(s1, g, q) == Completed(s, h, q) + i && g.posted == h.posted
  {
    var q, first := served[|served| - 1], served[..|served| - 1];
    EnoughPrefix(s, served);
    ServeWaiting(s, first, status, q);
    assert Times(served, q) <= Waiting(s.sqs[q]);
    assert Moved(s, h, Serve(s, first, status).s, g, q, Times(first, q));
  }

  lemma ThroughSnoc(s: State, h: Hist, served: seq<nat>, status: Sqe -> Option<nat>, s1: State, h1: Hist,
                    s2: State, h2: Hist)
    requires Wired(s) && Tracks(s, h) && AllBelow(served, |s.sqs|) && served != []
    requires Through(s, h, served[..|served| - 1], status, s1, h1)
    requires Inv(s2, h2) && Effect(s1, h1, s2, h2, [served[|served| - 1]]) && CodedSince(h1, h2, status)
    ensures Through(s, h, served, status, s2, h2)
  {
    var first := served[..|served| - 1];
    EffectSnoc(s, h, s1, h1, s2, h2, served);
    CodedThrough(h, h1, h2, status);
    forall p | 0 <= p < |s.sqs|
      ensures Moved(s, h, s2, h2, p, Times(served, p))
    {
      assert Moved(s, h, s1, h1, p, Times(first, p));
      EffectMoves(s1, h1, s2, h2, served[|served| - 1], p);
    }
  }

  /** What an exception on SQ q leaves of state s: the next command of q is fetched, and
      nothing is completed. */
  ghost predicate LeftBehind(s: State, q: nat, s': State)
    requires Wired(s) && q < |s.sqs|
  {
    s' == s.(sqs := s.sqs[q := s.sqs[q].(devHead := Advance(s.sqs[q].devHead, s.sqs[q].entries))])
  }

  /** Where a schedule breaks: at its first command on which the handler raises. All turns
      before it went through, that command is fetched, and the rest is not served. */
  lemma {:induction false} BreaksAt(s: State, h: Hist, served: seq<nat>, status: Sqe -> Option<nat>)
    returns (k: nat, h': Hist)
    requires Inv(s, h) && s.flight.Idle? && Enough(s, served) && !Handled(s, h, served, status)
    ensures k < |served| && Handled(s, h, served[..k], status) && !TurnHandled(s, h, served, status, k)
    ensures var before, o := Serve(s, served[..k], status), Serve(s, served, status);
            && before.Served? && Through(s, h, served[..k], status, before.s, h')
            && o.Broken? && o.fault == HandlerRaised && LeftBehind(before.s, served[k], o.s)
    decreases |served|
  {
    var n := |served| - 1;
    EnoughPrefix(s, served);
    HandledSnoc(s, h, served, status);
    if Handled(s, h, served[..n], status) {
      k := n;
      h' := ServeKeeps(s, h, served[..n], status);
      BreaksLast(s, h, h', served, status);
    } else {
      k, h' := BreaksAt(s, h, served[..n], status);
      BreaksEarlier(s, h, served, status, k);
    }
  }

  lemma BreaksEarlier(s: State, h: Hist, served: seq<nat>, status: Sqe -> Option<nat>, k: nat)
    requires Resting(s) && Tracks(s, h) && AllBelow(served, |s.sqs|) && k < |served| - 1
    ensures served[..|served| - 1][..k] == served[..k]
    ensures TurnHandled(s, h, served[..|served| - 1], status, k) <==> TurnHandled(s, h, served, status, k)
    ensures Serve(s, served[..|served| - 1], status).Broken? ==>
              Serve(s, served, status) == Serve(s, served[..|served| - 1], status)
  {
    assert served[..|served| - 1][..k] == served[..k];
  }

  lemma BreaksLast(s: State, h: Hist, g: Hist, served: seq<nat>, status: Sqe -> Option<nat>)
    requires Inv(s, h) && s.flight.Idle? && Enough(s, served) && served != []
    requires var first := served[..|served| - 1];
             var o := Serve(s, first, status);
             o.Served? && Through(s, h, first, status, o.s, g)
    requires !TurnHandled(s, h, served, status, |served| - 1)
    ensures var n := |served| - 1;
            var o := Serve(s, served, status);
            o.Broken? && o.fault == HandlerRaised && LeftBehind(Serve(s, served[..n], status).s, served[n], o.s)
  {
    var q, s1 := served[|served| - 1], Serve(s, served[..|served| - 1], status).s;
    TurnTakes(s, h, g, served, status);
    FetchTakes(s1, g, q);
    TakenNext(s, h, served, s1, g, status);
    RaisesLeaves(s1, g, q, status);
  }

  lemma RaisesLeaves(s: State, h: Hist, q: nat, status: Sqe -> Option<nat>)
    requires QueuesInv(s, h) && s.flight.Idle? && q < |s.sqs| && Waiting(s.sqs[q]) > 0
    requires Completed(s, h, q) < |h.posted[q]| && status(Taken(s, h, q, 0)).None?
    ensures var o := ServeOne(s, q, status); o.Broken? && o.fault == HandlerRaised && LeftBehind(s, q, o.s)
  {
    FetchTakes(s, h, q);
    ServeOneIs(s, q, status);
  }

  lemma CountOne(t: seq<Cqe>, t': seq<Cqe>, x: nat, p: nat)
    requires t <= t' && SqidsOf(t') == SqidsOf(t) + [x]
    ensures Count(t', p) == Count(t, p) + (if x == p then 1 else 0)
  {
    assert |t'| == |SqidsOf(t')| == |t| + 1 && t'[|t|].sqid == SqidsOf(t')[|t|];
    assert t' == t + [t'[|t|]];
    CountAppend(t, t'[|t|], p);
  }

  lemma NoneMore(t: seq<Cqe>, t': seq<Cqe>)
    requires t <= t' && SqidsOf(t') == SqidsOf(t) + []
    ensures t' == t
  {
    assert |t'| == |SqidsOf(t')| && |t| == |SqidsOf(t)|;
  }

  /** One served turn is one completion of its queue. */
  lemma EffectMoves(s: State, h: Hist, s': State, h': Hist, q: nat, p: nat)
    requires Wired(s) && Tracks(s, h) && Wired(s') && Tracks(s', h') && q < |s.sqs| && p < |s.sqs|
    requires Effect(s, h, s', h', [q])
    ensures Moved(s, h, s', h', p, if p == q then 1 else 0)
  {
    var c := s.cqOf[p];
    OntoOne(s, q, c);
    if s.cqOf[q] == c {
      CountOne(h.comps[c], h'.comps[c], q, p);
    } else {
      NoneMore(h.comps[c], h'.comps[c]);
    }
  }

  lemma {:induction false} CountIsTimes(t: seq<Cqe>, q: nat)
    ensures Count(t, q) == Times(SqidsOf(t), q)
  {
    if t != [] {
      var n := |t| - 1;
      CountIsTimes(t[..n], q);
      assert SqidsOf(t)[..n] == SqidsOf(t[..n]);
    }
  }

  lemma {:induction false} OntoTimes(s: State, served: seq<nat>, q: nat)
    requires Wired(s) && AllBelow(served, |s.sqs|) && q < |s.sqs|
    ensures Times(Onto(s, served, s.cqOf[q]), q) == Times(served, q)
  {
    if served != [] {
      var n := |served| - 1;
      OntoTimes(s, served[..n], q);
      var front := Onto(s, served[..n], s.cqOf[q]);
      TimesSnoc(front, served[n], q);
      assert front + [] == front;
    }
  }

  lemma {:induction false} OntoFront(s: State, served: seq<nat>, k: nat)
    requires Wired(s) && AllBelow(served, |s.sqs|) && k < |served|
    ensures Onto(s, served[..k], s.cqOf[served[k]]) + [served[k]] <= Onto(s, served, s.cqOf[served[k]])
  {
    var n := |served| - 1;
    if k < n {
      OntoFront(s, served[..n], k);
      assert served[..n][..k] == served[..k];
    }
  }

  /** Where the completion of turn k of a schedule stands in its CQ. */
  ghost function TurnAt(s: State, h: Hist, served: seq<nat>, k: nat): nat
    requires Wired(s) && Tracks(s, h) && AllBelow(served, |s.sqs|) && k < |served|
  {
    var c := s.cqOf[served[k]];
    |h.comps[c]| + |Onto(s, served[..k], c)|
  }

  lemma TurnSqid(s: State, h: Hist, s': State, h': Hist, served: seq<nat>, k: nat)
    requires Wired(s) && Tracks(s, h) && AllBelow(served, |s.sqs|) && k < |served| && Effect(s, h, s', h', served)
    ensures var q, i := served[k], TurnAt(s, h, served, k);
            var t := h'.comps[s.cqOf[q]];
            && i < |t| && t[i].sqid == q
            && SqidsOf(t[..i]) == SqidsOf(h.comps[s.cqOf[q]]) + Onto(s, served[..k], s.cqOf[q])
  {
    var q, i := served[k], TurnAt(s, h, served, k);
    var t, front := h'.comps[s.cqOf[q]], Onto(s, served[..k], s.cqOf[q]);
    OntoFront(s, served, k);
    var prior, all := SqidsOf(h.comps[s.cqOf[q]]), SqidsOf(t);
    assert all == prior + Onto(s, served, s.cqOf[q]);
    assert prior + (front + [q]) <= all;
    assert all[..i] == prior + front && all[i] == q;
    assert SqidsOf(t[..i]) == all[..i];
  }


  lemma TurnCount(s: State, h: Hist, s': State, h': Hist, served: seq<nat>, k: nat)
    requires Wired(s) && Tracks(s, h) && AllBelow(served, |s.sqs|) && k < |served| && Effect(s, h, s', h', served)
    ensures var q, i := served[k], TurnAt(s, h, served, k);
            var t := h'.comps[s.cqOf[q]];
            i < |t| && Count(t[..i], q) == Completed(s, h, q) + Times(served[..k], q)
  {
    var q, i := served[k], TurnAt(s, h, served, k);
    var c := s.cqOf[q];
    TurnSqid(s, h, s', h', served, k);
    CountIsTimes(h'.comps[c][..i], q);
    CountIsTimes(h.comps[c], q);
    TimesAppend(SqidsOf(h.comps[c]), Onto(s, served[..k], c), q);
    OntoTimes(s, served[..k], q);
  }

  /** Turn k of a schedule that went through leaves a completion that carries the status of the
      command it took. */
  lemma TurnStatus(s: State, h: Hist, s': State, h': Hist, served: seq<nat>, status: Sqe -> Option<nat>, k: nat)
    requires Wired(s) && Tracks(s, h) && AllBelow(served, |s.sqs|) && k < |served|
    requires Through(s, h, served, status, s', h')
    ensures var q, i := served[k], TurnAt(s, h, served, k);
            var c, j := s.cqOf[q], Times(served[..k], q);
            && i < |h'.comps[c]| && h'.comps[c][i].sqid == q
            && Completed(s, h, q) + j < |h.posted[q]|
            && h'.comps[c][i].cid == Taken(s, h, q, j).cid
            && status(Taken(s, h, q, j)) == Some(h'.comps[c][i].sc)
  {
    var i, c := TurnAt(s, h, served, k), s.cqOf[served[k]];
    TurnSqid(s, h, s', h', served, k);
    TurnCount(s, h, s', h', served, k);
    assert Coded(h', c, i, status);
    assert CompInv(s', h', c, i);
  }

  /** What is waiting in a submission ring is exactly what was posted and not yet completed. */
  lemma WaitingExact(s: State, h: Hist, q: nat)
    requires QueuesInv(s, h) && s.flight.Idle? && q < |s.sqs|
    ensures Waiting(s.sqs[q]) == |h.posted[q]| - Completed(s, h, q)
  {
    var sq := s.sqs[q];
    assert SqInv(sq, h.posted[q], Fetched(s, h, q), Consumed(s, h, q));
    OccupancyExact(Fetched(s, h, q), |h.posted[q]|, sq.entries);
  }

  /** The device never looks at the host's map of outstanding commands, so its turns may run
      before the host has entered the command it posted. */
  lemma {:induction false} ServeIgnoresOutstanding(s: State, served: seq<nat>, status: Sqe -> Option<nat>,
                                                   m: map<(nat, nat), Command>)
    requires Resting(s) && AllBelow(served, |s.sqs|)
    requires forall k :: k in m ==> m[k].q < |s.sqs|
    ensures var o := Serve(s, served, status);
            Serve(s.(outstanding := m), served, status) == o.(s := o.s.(outstanding := m))
  {
    if served != [] {
      ServeIgnoresOutstanding(s, served[..|served| - 1], status, m);
      var prior := Serve(s, served[..|served| - 1], status);
      if prior.Served? {
        ServeLeavesHost(s, served[..|served| - 1], status);
        TurnIgnoresOutstanding(prior.s, served[|served| - 1], status, m);
      }
    }
  }

  lemma TurnIgnoresOutstanding(s: State, q: nat, status: Sqe -> Option<nat>, m: map<(nat, nat), Command>)
    requires Resting(s) && q < |s.sqs|
    requires forall k :: k in m ==> m[k].q < |s.sqs|
    ensures var o := ServeOne(s, q, status);
            Resting(s.(outstanding := m))
                && ServeOne(s.(outstanding := m), q, status) == o.(s := o.s.(outstanding := m))
  {
    var t := s.(outstanding := m);
    assert FetchStep(t, q).s == FetchStep(s, q).s.(outstanding := m);
  }

  lemma TurnLeavesHost(s: State, q: nat, status: Sqe -> Option<nat>)
    requires Resting(s) && q < |s.sqs|
    ensures var s' := ServeOne(s, q, status).s;
            s'.outstanding == s.outstanding && s'.cqOf == s.cqOf && s'.cids == s.cids
  {
  }

  lemma {:induction false} ServeLeavesHost(s: State, served: seq<nat>, status: Sqe -> Option<nat>)
    requires Resting(s) && AllBelow(served, |s.sqs|)
    ensures var s' := Serve(s, served, status).s;
            s'.outstanding == s.outstanding && s'.cqOf == s.cqOf && s'.cids == s.cids
  {
    if served != [] {
      ServeLeavesHost(s, served[..|served| - 1], status);
      TurnLeavesHost(Serve(s, served[..|served| - 1], status).s, served[|served| - 1], status);
    }
  }

  lemma {:induction false} OntoHas(s: State, served: seq<nat>, c: nat, p: nat)
    requires Wired(s) && AllBelow(served, |s.sqs|) && p in served && p < |s.sqs| && s.cqOf[p] == c
    ensures Onto(s, served, c) != []
  {
    var n := |served| - 1;
    if served[n] != p {
      assert served == served[..n] + [served[n]];
      OntoHas(s, served[..n], c, p);
    }
  }

  /** p is the first SQ of c in the table that has a command waiting. */
  ghost predicate FirstBusy(s: State, ns: seq<nat>, c: nat, p: nat)
    requires Wired(s) && |ns| == |s.sqs|
  {
    && p < |ns| && s.cqOf[p] == c && ns[p] > 0
    && forall q :: 0 <= q < p && s.cqOf[q] == c ==> ns[q] == 0
  }

  /** Serving in table order, the first completion of c is for the first SQ of c that has a
      command waiting. */
  lemma {:induction false} FirstOnto(s: State, ns: seq<nat>, served: seq<nat>, c: nat, p: nat)
    requires Wired(s) && |ns| == |s.sqs| && AllBelow(served, |s.sqs|) && FirstBusy(s, ns, c, p)
    requires InTableOrder(ns, served) && forall k :: 0 <= k < |served| ==> ns[served[k]] > 0
    ensures Onto(s, served, c) != [] ==> Onto(s, served, c)[0] == p
  {
    if served != [] {
      TableOrderPrefix(ns, served, |served| - 1);
      FirstOnto(s, ns, served[..|served| - 1], c, p);
      LastOnto(s, ns, served, c, p);
    }
  }

  lemma LastOnto(s: State, ns: seq<nat>, served: seq<nat>, c: nat, p: nat)
    requires Wired(s) && |ns| == |s.sqs| && AllBelow(served, |s.sqs|) && FirstBusy(s, ns, c, p)
    requires InTableOrder(ns, served) && served != [] && ns[served[|served| - 1]] > 0
    ensures var x := served[|served| - 1];
            s.cqOf[x] == c && x != p ==> Onto(s, served[..|served| - 1], c) != []
  {
    var n := |served| - 1;
    if s.cqOf[served[n]] == c && served[n] != p {
      assert p < served[n] && p in served[..n];
      OntoHas(s, served[..n], c, p);
    }
  }

  lemma TableOrderPrefix(ns: seq<nat>, served: seq<nat>, n: nat)
    requires InTableOrder(ns, served) && n <= |served|
    ensures InTableOrder(ns, served[..n])
  {
    forall k, p | 0 <= k < n && 0 <= p < served[..n][k] && p < |ns| && ns[p] > 0
      ensures p in served[..n][..k]
    {
      assert served[..n][..k] == served[..k];
    }
  }
}
