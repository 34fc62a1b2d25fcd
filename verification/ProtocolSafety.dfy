/** The invariant of `Protocol` holds in every state of every run. */
module ProtocolSafety {
  import opened Ring
  import opened Protocol

  // ---- Counting completions per SQ --------------------------------------------------

  lemma CountAppend(t: seq<Cqe>, x: Cqe, q: nat)
    ensures Count(t + [x], q) == Count(t, q) + (if x.sqid == q then 1 else 0)
  {
    assert (t + [x])[..|t|] == t;
  }

  lemma CountPrefix(t: seq<Cqe>, k: nat, q: nat)
    requires k < |t|
    ensures Count(t[..k + 1], q) == Count(t[..k], q) + (if t[k].sqid == q then 1 else 0)
  {
    assert t[..k + 1][..k] == t[..k];
  }

  lemma {:induction false} CountMono(t: seq<Cqe>, k: nat, n: nat, q: nat)
    requires k <= n <= |t|
    ensures Count(t[..k], q) <= Count(t[..n], q)
    decreases n
  {
    if k < n {
      CountMono(t, k, n - 1, q);
      CountPrefix(t, n - 1, q);
    }
  }

  lemma {:induction false} CountNone(t: seq<Cqe>, q: nat)
    requires forall i :: 0 <= i < |t| ==> t[i].sqid != q
    ensures Count(t, q) == 0
  {
    if t != [] {
      CountNone(t[..|t| - 1], q);
    }
  }

  /** Completions after the first k, summed over the first n SQs. */
  ghost function Spread(t: seq<Cqe>, k: nat, n: nat): int
    requires k <= |t|
  {
    if n == 0 then 0 else Spread(t, k, n - 1) + Count(t, n - 1) - Count(t[..k], n - 1)
  }

  lemma {:induction false} SpreadAppend(t: seq<Cqe>, x: Cqe, k: nat, n: nat)
    requires k <= |t|
    ensures Spread(t + [x], k, n) == Spread(t, k, n) + (if x.sqid < n then 1 else 0)
  {
    if n > 0 {
      SpreadAppend(t, x, k, n - 1);
      CountAppend(t, x, n - 1);
      assert (t + [x])[..k] == t[..k];
    }
  }

  lemma {:induction false} SpreadNone(t: seq<Cqe>, n: nat)
    ensures Spread(t, |t|, n) == 0
  {
    if n > 0 {
      SpreadNone(t, n - 1);
      assert t[..|t|] == t;
    }
  }

  lemma {:induction false} SpreadIsLength(t: seq<Cqe>, k: nat, n: nat)
    requires k <= |t|
    requires forall i :: 0 <= i < |t| ==> t[i].sqid < n
    ensures Spread(t, k, n) == |t| - k
    decreases |t|
  {
    if k == |t| {
      SpreadNone(t, n);
    } else {
      var u := t[..|t| - 1];
      assert t == u + [t[|t| - 1]];
      SpreadIsLength(u, k, n);
      SpreadAppend(u, t[|t| - 1], k, n);
    }
  }

  /** Unconsumed completions of c are bounded by what its SQs may have outstanding, with
      one to spare while the device holds a command of SQ `busy`. */
  lemma {:induction false} SpreadBound(s: State, t: seq<Cqe>, k: nat, c: nat, busy: nat, n: nat)
    requires Wired(s) && k <= |t| && n <= |s.sqs| && busy < |s.sqs| && s.cqOf[busy] == c
    requires forall i :: 0 <= i < |t| ==> t[i].sqid < |s.sqs| && s.cqOf[t[i].sqid] == c
    requires forall q :: 0 <= q < n && s.cqOf[q] == c ==>
               Count(t, q) - Count(t[..k], q) + (if q == busy then 1 else 0) <= s.sqs[q].entries - 1
    ensures Spread(t, k, n) + (if busy < n then 1 else 0) <= Demand(s, c, n)
  {
    if n > 0 {
      SpreadBound(s, t, k, c, busy, n - 1);
      if s.cqOf[n - 1] != c {
        CountNone(t, n - 1);
        CountNone(t[..k], n - 1);
      }
    }
  }

  lemma CompsBelong(s: State, h: Hist, c: nat)
    requires QueuesInv(s, h) && c < |s.cqs|
    ensures forall i :: 0 <= i < |h.comps[c]| ==> h.comps[c][i].sqid < |s.sqs| && s.cqOf[h.comps[c][i].sqid] == c
  {
    forall i | 0 <= i < |h.comps[c]|
      ensures h.comps[c][i].sqid < |s.sqs| && s.cqOf[h.comps[c][i].sqid] == c
    {
      assert CompInv(s, h, c, i);
    }
  }

  lemma WindowOf(s: State, h: Hist, q: nat)
    requires QueuesInv(s, h) && q < |s.sqs|
    ensures Completed(s, h, q) - Consumed(s, h, q)
            + (if s.flight.Busy? && s.flight.q == q then 1 else 0) <= s.sqs[q].entries - 1
  {
  }

  /** The "CQ FULL" assertion cannot fire: a CQ with room for its SQs has a free slot
      whenever the device holds a command that completes into it. */
  lemma CqNotFull(s: State, h: Hist)
    requires QueuesInv(s, h) && RoomInv(s) && s.flight.Busy?
    ensures var cq := s.cqs[s.cqOf[s.flight.q]]; !Full(cq.head, cq.devTail, cq.entries)
  {
    var c := s.cqOf[s.flight.q];
    var t, k := h.comps[c], h.consumed[c];
    assert |t| + 1 < k + s.cqs[c].entries by {
      CompsBelong(s, h, c);
      forall q | 0 <= q < |s.sqs| && s.cqOf[q] == c
        ensures Count(t, q) - Count(t[..k], q) + (if q == s.flight.q then 1 else 0) <= s.sqs[q].entries - 1
      {
        WindowOf(s, h, q);
      }
      SpreadBound(s, t, k, c, s.flight.q, |s.sqs|);
      SpreadIsLength(t, k, |s.sqs|);
      assert RoomFor(s, c);
    }
    OccupancyExact(k, |t|, s.cqs[c].entries);
  }

  // ---- One queue at a time ----------------------------------------------------------

  lemma SqPosts(sq: Sq, posted: seq<Sqe>, fetched: nat, consumed: nat, entry: Sqe)
    requires SqInv(sq, posted, fetched, consumed)
    ensures Full(sq.hostHead, sq.tail, sq.entries) <==> |posted| - consumed == sq.entries - 1
    ensures !Full(sq.hostHead, sq.tail, sq.entries) ==>
              SqInv(sq.(slots := sq.slots[sq.tail := entry], tail := Advance(sq.tail, sq.entries)),
                    posted + [entry], fetched, consumed)
  {
    OccupancyExact(consumed, |posted|, sq.entries);
    AdvanceFollows(|posted|, sq.entries);
    forall i | consumed <= i < |posted|
      ensures i % sq.entries != |posted| % sq.entries
    {
      Apart(i, |posted|, sq.entries);
    }
  }

  lemma SqFetches(sq: Sq, posted: seq<Sqe>, fetched: nat, consumed: nat)
    requires SqInv(sq, posted, fetched, consumed)
    ensures NumEntries(sq.devHead, sq.tail, sq.entries) == |posted| - fetched
    ensures fetched < |posted| ==>
              SqInv(sq.(devHead := Advance(sq.devHead, sq.entries)), posted, fetched + 1, consumed)
  {
    OccupancyExact(fetched, |posted|, sq.entries);
    AdvanceFollows(fetched, sq.entries);
  }

  lemma WritesStep(j: nat, n: nat, e: nat)
    requires 0 < e && j < e
    ensures Writes(j, n + 1, e) == Writes(j, n, e) + (if j == n % e then 1 else 0)
    ensures Writes(j, n + 1, e) % 2 == if (Writes(j, n, e) % 2 == 1) == (j == n % e) then 0 else 1
  {
    AdvanceFollows(n, e);
  }

  lemma CqPosts(cq: Cq, comps: seq<Cqe>, consumed: nat, cqe: Cqe)
    requires CqInv(cq, comps, consumed)
    requires |comps| + 1 < consumed + cq.entries && cqe.p == 0
    ensures CqInv(cq.(slots := cq.slots[cq.devTail := Stamped(cqe, cq.slots[cq.devTail])],
                      devTail := Advance(cq.devTail, cq.entries)),
                  comps + [cqe], consumed)
  {
    var n, e := |comps|, cq.entries;
    var slots' := cq.slots[cq.devTail := Stamped(cqe, cq.slots[cq.devTail])];
    AdvanceFollows(n, e);
    forall j | 0 <= j < e
      ensures slots'[j].p == Writes(j, n + 1, e) % 2
    {
      assert cq.slots[j].p == Writes(j, n, e) % 2;
      WritesStep(j, n, e);
    }
    forall i | consumed <= i < n + 1
      ensures slots'[i % e].(p := 0) == (comps + [cqe])[i]
    {
      Apart(i, n, e);
      assert i < n ==> cq.slots[i % e].(p := 0) == comps[i];
    }
  }

  /** The ready test is exact: the bit at the host's head matches its phase if and only if
      there is a completion the host has not consumed. */
  lemma ReadyIffUnconsumed(cq: Cq, comps: seq<Cqe>, consumed: nat)
    requires CqInv(cq, comps, consumed)
    ensures Ready(cq) <==> consumed < |comps|
  {
    Apart(consumed, |comps|, cq.entries);
  }

  lemma CqConsumes(cq: Cq, comps: seq<Cqe>, consumed: nat)
    requires CqInv(cq, comps, consumed) && consumed < |comps|
    ensures CqInv(Consume(cq), comps, consumed + 1)
  {
    AdvanceFollows(consumed, cq.entries);
  }

  lemma SqConsumes(sq: Sq, posted: seq<Sqe>, fetched: nat, consumed: nat)
    requires SqInv(sq, posted, fetched, consumed) && consumed < fetched
    ensures SqInv(sq.(hostHead := (consumed + 1) % sq.entries), posted, fetched, consumed + 1)
  {
  }

  // ---- One step of the whole system: the queues -------------------------------------

  /** s' has the queues of s with the same sizes and wiring. */
  ghost predicate SameShape(s: State, s': State) {
    && s'.cqOf == s.cqOf && |s'.sqs| == |s.sqs| && |s'.cqs| == |s.cqs|
    && (forall q :: 0 <= q < |s.sqs| ==> s'.sqs[q].entries == s.sqs[q].entries)
    && (forall c :: 0 <= c < |s.cqs| ==> s'.cqs[c].entries == s.cqs[c].entries)
  }

  lemma {:induction false} DemandSame(s: State, s': State, c: nat, n: nat)
    requires Wired(s) && Wired(s') && SameShape(s, s') && n <= |s.sqs|
    ensures Demand(s', c, n) == Demand(s, c, n)
  {
    if n > 0 {
      DemandSame(s, s', c, n - 1);
    }
  }

  lemma RoomKept(s: State, s': State)
    requires Wired(s) && Wired(s') && SameShape(s, s') && RoomInv(s)
    ensures RoomInv(s')
  {
    forall c | 0 <= c < |s.cqs|
      ensures RoomFor(s', c)
    {
      assert RoomFor(s, c);
      DemandSame(s, s', c, |s.sqs|);
    }
  }

  /** Completions stay in agreement with the posted commands when more commands are posted. */
  lemma CompKept(s: State, h: Hist, s': State, h': Hist, c: nat, i: nat)
    requires Wired(s) && Tracks(s, h) && Wired(s') && Tracks(s', h') && SameShape(s, s')
    requires c < |s.cqs| && i < |h.comps[c]| && h.comps[c] <= h'.comps[c]
    requires forall q :: 0 <= q < |s.sqs| ==> h.posted[q] <= h'.posted[q]
    requires CompInv(s, h, c, i)
    ensures CompInv(s', h', c, i)
  {
    assert h'.comps[c][..i] == h.comps[c][..i];
  }

  lemma PostShape(s: State, h: Hist, q: nat, sqe: Sqe)
    requires Wired(s) && Tracks(s, h) && q < |s.sqs|
    ensures var s', h' := PostStep(s, q, sqe).s, Record(s, h, Post(q, sqe));
            !PostStep(s, q, sqe).Crash? && Wired(s') && Tracks(s', h') && SameShape(s, s')
  {
    assert Wired(PostStep(s, q, sqe).s);
  }

  lemma PostSq(s: State, h: Hist, q: nat, sqe: Sqe, p: nat)
    requires QueuesInv(s, h) && q < |s.sqs| && PostStep(s, q, sqe).Ok? && p < |s.sqs|
    ensures var s', h' := PostStep(s, q, sqe).s, Record(s, h, Post(q, sqe));
            && Wired(s') && Tracks(s', h') && |s'.sqs| == |s.sqs|
            && SqInv(s'.sqs[p], h'.posted[p], Fetched(s', h', p), Consumed(s', h', p))
  {
    PostShape(s, h, q, sqe);
    assert SqInv(s.sqs[p], h.posted[p], Fetched(s, h, p), Consumed(s, h, p));
    SqPosts(s.sqs[q], h.posted[q], Fetched(s, h, q), Consumed(s, h, q), sqe.(cid := s.cids.value));
  }

  lemma PostQueues(s: State, h: Hist, q: nat, sqe: Sqe)
    requires QueuesInv(s, h) && q < |s.sqs| && PostStep(s, q, sqe).Ok?
    ensures QueuesInv(PostStep(s, q, sqe).s, Record(s, h, Post(q, sqe)))
  {
    var s', h' := PostStep(s, q, sqe).s, Record(s, h, Post(q, sqe));
    PostShape(s, h, q, sqe);
    forall p | 0 <= p < |s.sqs|
      ensures SqInv(s'.sqs[p], h'.posted[p], Fetched(s', h', p), Consumed(s', h', p))
    {
      PostSq(s, h, q, sqe, p);
    }
    forall c, i | 0 <= c < |s.cqs| && 0 <= i < |h.comps[c]|
      ensures CompInv(s', h', c, i)
    {
      CompKept(s, h, s', h', c, i);
    }
  }

  lemma FetchShape(s: State, h: Hist, q: nat)
    requires Wired(s) && Tracks(s, h) && q < |s.sqs|
    ensures var s' := FetchStep(s, q).s; FetchStep(s, q).Ok? && Wired(s') && Tracks(s', h) && SameShape(s, s')
  {
    assert Wired(FetchStep(s, q).s);
  }

  lemma FetchQueues(s: State, h: Hist, q: nat)
    requires QueuesInv(s, h) && q < |s.sqs| && s.flight.Idle?
    ensures FetchStep(s, q).Ok? && QueuesInv(FetchStep(s, q).s, h)
    ensures FetchStep(s, q).s == s <==> Fetched(s, h, q) == |h.posted[q]|
  {
    var s' := FetchStep(s, q).s;
    SqFetches(s.sqs[q], h.posted[q], Fetched(s, h, q), Consumed(s, h, q));
    if s' != s {
      FetchShape(s, h, q);
      forall p | 0 <= p < |s.sqs|
        ensures SqInv(s'.sqs[p], h.posted[p], Fetched(s', h, p), Consumed(s', h, p))
      {
        assert SqInv(s.sqs[p], h.posted[p], Fetched(s, h, p), Consumed(s, h, p));
      }
      forall c, i | 0 <= c < |s.cqs| && 0 <= i < |h.comps[c]|
        ensures CompInv(s', h, c, i)
      {
        CompKept(s, h, s', h, c, i);
      }
    }
  }

  /** What a completion writes: the reference taken at fetch time still reads the command
      that was fetched, whatever the host posted and consumed in between. */
  lemma FlightReadsFetched(s: State, h: Hist)
    requires QueuesInv(s, h) && s.flight.Busy?
    ensures var q := s.flight.q; Completed(s, h, q) < |h.posted[q]|
    ensures var q := s.flight.q; s.sqs[q].slots[s.flight.slot] == h.posted[q][Completed(s, h, q)]
    ensures var q := s.flight.q; s.sqs[q].devHead == (Completed(s, h, q) + 1) % s.sqs[q].entries
  {
    var q := s.flight.q;
    assert SqInv(s.sqs[q], h.posted[q], Fetched(s, h, q), Consumed(s, h, q));
    CountMono(h.comps[s.cqOf[q]], h.consumed[s.cqOf[q]], |h.comps[s.cqOf[q]]|, q);
    var t := h.comps[s.cqOf[q]];
    assert t[..|t|] == t;
    assert s.sqs[q].slots[Completed(s, h, q) % s.sqs[q].entries] == h.posted[q][Completed(s, h, q)];
  }

  lemma CompleteShape(s: State, h: Hist, sc: nat)
    requires Wired(s) && Tracks(s, h) && s.flight.Busy? && CompleteStep(s, sc).Ok?
    ensures var s', h' := CompleteStep(s, sc).s, Record(s, h, Complete(sc));
            Wired(s') && Tracks(s', h') && SameShape(s, s') && s'.flight.Idle?
  {
    var s' := CompleteStep(s, sc).s;
    assert Wired(s');
  }

  lemma CompleteCounts(s: State, h: Hist, sc: nat, p: nat)
    requires Wired(s) && Tracks(s, h) && s.flight.Busy? && CompleteStep(s, sc).Ok? && p < |s.sqs|
    ensures var s', h' := CompleteStep(s, sc).s, Record(s, h, Complete(sc));
            && Wired(s') && Tracks(s', h') && |s'.sqs| == |s.sqs|
            && Fetched(s', h', p) == Fetched(s, h, p) && Consumed(s', h', p) == Consumed(s, h, p)
  {
    CompleteShape(s, h, sc);
    var h' := Record(s, h, Complete(sc));
    var c := s.cqOf[s.flight.q];
    assert h'.comps[c][..h.consumed[c]] == h.comps[c][..h.consumed[c]];
    CountAppend(h.comps[c], h'.comps[c][|h.comps[c]|], p);
  }

  lemma CompleteSqs(s: State, h: Hist, sc: nat)
    requires QueuesInv(s, h) && s.flight.Busy? && CompleteStep(s, sc).Ok?
    ensures var s', h' := CompleteStep(s, sc).s, Record(s, h, Complete(sc));
            Wired(s') && Tracks(s', h') && SqsInv(s', h')
  {
    CompleteShape(s, h, sc);
    var s', h' := CompleteStep(s, sc).s, Record(s, h, Complete(sc));
    forall p | 0 <= p < |s.sqs|
      ensures SqInv(s'.sqs[p], h'.posted[p], Fetched(s', h', p), Consumed(s', h', p))
    {
      assert SqInv(s.sqs[p], h.posted[p], Fetched(s, h, p), Consumed(s, h, p));
      CompleteCounts(s, h, sc, p);
    }
  }

  lemma CompleteCqs(s: State, h: Hist, sc: nat)
    requires QueuesInv(s, h) && s.flight.Busy? && CompleteStep(s, sc).Ok?
    ensures var s', h' := CompleteStep(s, sc).s, Record(s, h, Complete(sc));
            Wired(s') && Tracks(s', h') && CqsInv(s', h')
  {
    CompleteShape(s, h, sc);
    var s', h' := CompleteStep(s, sc).s, Record(s, h, Complete(sc));
    var c := s.cqOf[s.flight.q];
    OccupancyExact(h.consumed[c], |h.comps[c]|, s.cqs[c].entries);
    CqPosts(s.cqs[c], h.comps[c], h.consumed[c], h'.comps[c][|h.comps[c]|]);
  }

  lemma CompleteComps(s: State, h: Hist, sc: nat)
    requires QueuesInv(s, h) && s.flight.Busy? && CompleteStep(s, sc).Ok?
    ensures var s', h' := CompleteStep(s, sc).s, Record(s, h, Complete(sc));
            Wired(s') && Tracks(s', h') && CompsInv(s', h')
  {
    CompleteShape(s, h, sc);
    FlightReadsFetched(s, h);
    var s', h' := CompleteStep(s, sc).s, Record(s, h, Complete(sc));
    var c := s.cqOf[s.flight.q];
    forall d, i | 0 <= d < |s.cqs| && 0 <= i < |h'.comps[d]|
      ensures CompInv(s', h', d, i)
    {
      if d == c && i == |h.comps[c]| {
        assert h'.comps[c][..i] == h.comps[c];
      } else {
        CompKept(s, h, s', h', d, i);
      }
    }
  }

  lemma CompleteQueues(s: State, h: Hist, sc: nat)
    requires QueuesInv(s, h) && s.flight.Busy? && CompleteStep(s, sc).Ok?
    ensures QueuesInv(CompleteStep(s, sc).s, Record(s, h, Complete(sc)))
  {
    CompleteShape(s, h, sc);
    CompleteSqs(s, h, sc);
    CompleteCqs(s, h, sc);
    CompleteComps(s, h, sc);
  }

  /** What a ready poll finds: the oldest completion, and it belongs to the oldest command
      of its SQ that the host has not consumed. */
  lemma PollFinds(s: State, h: Hist, c: nat)
    requires QueuesInv(s, h) && c < |s.cqs|
    ensures Ready(s.cqs[c]) <==> h.consumed[c] < |h.comps[c]|
    ensures Ready(s.cqs[c]) ==>
              var cqe := h.comps[c][h.consumed[c]];
              var q := cqe.sqid;
              && s.cqs[c].slots[s.cqs[c].head].(p := 0) == cqe
              && q < |s.sqs| && s.cqOf[q] == c
              && Consumed(s, h, q) < Completed(s, h, q) <= |h.posted[q]|
              && cqe.cid == h.posted[q][Consumed(s, h, q)].cid
              && cqe.sqhd == (Consumed(s, h, q) + 1) % s.sqs[q].entries
  {
    ReadyIffUnconsumed(s.cqs[c], h.comps[c], h.consumed[c]);
    if Ready(s.cqs[c]) {
      var k := h.consumed[c];
      assert CompInv(s, h, c, k);
      assert s.cqs[c].slots[k % s.cqs[c].entries].(p := 0) == h.comps[c][k];
      var q := h.comps[c][k].sqid;
      CountPrefix(h.comps[c], k, q);
      CountMono(h.comps[c], k + 1, |h.comps[c]|, q);
      assert h.comps[c][..|h.comps[c]|] == h.comps[c];
      assert SqInv(s.sqs[q], h.posted[q], Fetched(s, h, q), Consumed(s, h, q));
    }
  }

  /** The queue part of consuming one completion of c, whatever is outstanding. */
  ghost function Consuming(s: State, h: Hist, c: nat): (r: (State, Hist))
    requires QueuesInv(s, h) && c < |s.cqs| && Ready(s.cqs[c])
  {
    PollFinds(s, h, c);
    var cqe := h.comps[c][h.consumed[c]];
    (s.(cqs := s.cqs[c := Consume(s.cqs[c])],
        sqs := s.sqs[cqe.sqid := s.sqs[cqe.sqid].(hostHead := cqe.sqhd)]),
     h.(consumed := h.consumed[c := h.consumed[c] + 1]))
  }

  lemma ConsumingCounts(s: State, h: Hist, c: nat, p: nat)
    requires QueuesInv(s, h) && c < |s.cqs| && Ready(s.cqs[c]) && p < |s.sqs|
    ensures var (s', h') := Consuming(s, h, c);
            && Wired(s') && Tracks(s', h') && SameShape(s, s')
            && Completed(s', h', p) == Completed(s, h, p)
            && Consumed(s', h', p) ==
                 Consumed(s, h, p) + (if p == h.comps[c][h.consumed[c]].sqid then 1 else 0)
  {
    PollFinds(s, h, c);
    var (s', h') := Consuming(s, h, c);
    assert CqInv(s.cqs[c], h.comps[c], h.consumed[c]);
    CqConsumes(s.cqs[c], h.comps[c], h.consumed[c]);
    var q := h.comps[c][h.consumed[c]].sqid;
    assert SqInv(s.sqs[q], h.posted[q], Fetched(s, h, q), Consumed(s, h, q));
    assert Wired(s');
    if s.cqOf[p] == c {
      CountPrefix(h.comps[c], h.consumed[c], p);
    }
  }

  lemma ConsumingSq(s: State, h: Hist, c: nat, p: nat)
    requires QueuesInv(s, h) && c < |s.cqs| && Ready(s.cqs[c]) && p < |s.sqs|
    ensures var (s', h') := Consuming(s, h, c);
            && Wired(s') && Tracks(s', h') && |s'.sqs| == |s.sqs|
            && SqInv(s'.sqs[p], h'.posted[p], Fetched(s', h', p), Consumed(s', h', p))
  {
    PollFinds(s, h, c);
    ConsumingCounts(s, h, c, p);
    assert SqInv(s.sqs[p], h.posted[p], Fetched(s, h, p), Consumed(s, h, p));
    if p == h.comps[c][h.consumed[c]].sqid {
      SqConsumes(s.sqs[p], h.posted[p], Fetched(s, h, p), Consumed(s, h, p));
    }
  }

  lemma ConsumingSqs(s: State, h: Hist, c: nat)
    requires QueuesInv(s, h) && c < |s.cqs| && Ready(s.cqs[c])
    ensures var (s', h') := Consuming(s, h, c);
            Wired(s') && Tracks(s', h') && SqsInv(s', h') && FlightInv(s', h')
  {
    PollFinds(s, h, c);
    ConsumingCounts(s, h, c, h.comps[c][h.consumed[c]].sqid);
    var (s', h') := Consuming(s, h, c);
    forall p | 0 <= p < |s.sqs|
      ensures SqInv(s'.sqs[p], h'.posted[p], Fetched(s', h', p), Consumed(s', h', p))
    {
      ConsumingSq(s, h, c, p);
    }
    if s.flight.Busy? {
      ConsumingCounts(s, h, c, s.flight.q);
    }
  }

  lemma ConsumingQueues(s: State, h: Hist, c: nat)
    requires QueuesInv(s, h) && c < |s.cqs| && Ready(s.cqs[c])
    ensures var (s', h') := Consuming(s, h, c); QueuesInv(s', h')
  {
    PollFinds(s, h, c);
    var (s', h') := Consuming(s, h, c);
    ConsumingSqs(s, h, c);
    ConsumingCounts(s, h, c, h.comps[c][h.consumed[c]].sqid);
    CqConsumes(s.cqs[c], h.comps[c], h.consumed[c]);
    assert CqsInv(s', h');
    forall d, i | 0 <= d < |s.cqs| && 0 <= i < |h.comps[d]|
      ensures CompInv(s', h', d, i)
    {
      CompKept(s, h, s', h', d, i);
    }
  }

  // ---- One step of the whole system: outstanding commands and CIDs ------------------

  /** The CID the next `start_cmd` on q will use is not one that q has outstanding. */
  ghost predicate FreshCid(s: State, q: nat) {
    (s.cids.value, q) !in s.outstanding
  }

  /** Pending commands keep their place in `OutInv` when no queue is touched by the host. */
  lemma OutSame(s: State, h: Hist, s': State, h': Hist)
    requires Wired(s) && Tracks(s, h) && Wired(s') && Tracks(s', h') && OutInv(s, h)
    requires s'.outstanding == s.outstanding && h'.posted == h.posted
    requires forall p: nat, i: nat :: Pending(s', h', p, i) <==> Pending(s, h, p, i)
    ensures OutInv(s', h')
  {
    forall k | k in s'.outstanding
      ensures exists i: nat :: Pending(s', h', k.1, i) && h'.posted[k.1][i].cid == k.0
    {
      var i: nat :| Pending(s, h, k.1, i) && h.posted[k.1][i].cid == k.0;
      assert Pending(s', h', k.1, i);
    }
  }

  /** The host's bookkeeping after a post of `entry` on q. */
  ghost predicate Entered(s: State, h: Hist, s': State, h': Hist, q: nat, entry: Sqe) {
    && Wired(s) && Tracks(s, h) && Wired(s') && Tracks(s', h') && q < |s.sqs| == |s'.sqs|
    && s'.outstanding == s.outstanding[(entry.cid, q) := Command(q, entry)]
    && h'.posted == h.posted[q := h.posted[q] + [entry]]
    && (forall p: nat, i: nat :: Pending(s', h', p, i) <==> Pending(s, h, p, i) || (p == q && i == |h.posted[q]|))
  }

  lemma EnteredAt(s: State, h: Hist, s': State, h': Hist, q: nat, entry: Sqe, p: nat, i: nat)
    requires Entered(s, h, s', h', q, entry) && Pending(s', h', p, i)
    ensures if p == q && i == |h.posted[q]| then h'.posted[p][i] == entry
            else Pending(s, h, p, i) && h'.posted[p][i] == h.posted[p][i]
  {
  }

  lemma EnteredListed(s: State, h: Hist, s': State, h': Hist, q: nat, entry: Sqe)
    requires Entered(s, h, s', h', q, entry) && OutInv(s, h) && (entry.cid, q) !in s.outstanding
    ensures PendingListed(s', h')
  {
    forall p: nat, i: nat | Pending(s', h', p, i)
      ensures (h'.posted[p][i].cid, p) in s'.outstanding
      ensures s'.outstanding[(h'.posted[p][i].cid, p)] == Command(p, h'.posted[p][i])
    {
      EnteredAt(s, h, s', h', q, entry, p, i);
    }
  }

  lemma EnteredDistinct(s: State, h: Hist, s': State, h': Hist, q: nat, entry: Sqe)
    requires Entered(s, h, s', h', q, entry) && OutInv(s, h) && (entry.cid, q) !in s.outstanding
    ensures PendingDistinct(s', h')
  {
    forall p: nat, i: nat, j: nat | Pending(s', h', p, i) && Pending(s', h', p, j) && i < j
      ensures h'.posted[p][i].cid != h'.posted[p][j].cid
    {
      EnteredAt(s, h, s', h', q, entry, p, i);
      EnteredAt(s, h, s', h', q, entry, p, j);
    }
  }

  lemma EnteredPending(s: State, h: Hist, s': State, h': Hist, q: nat, entry: Sqe)
    requires Entered(s, h, s', h', q, entry) && ListedPending(s, h)
    ensures ListedPending(s', h')
  {
    forall k | k in s'.outstanding
      ensures exists i: nat :: Pending(s', h', k.1, i) && h'.posted[k.1][i].cid == k.0
    {
      if k == (entry.cid, q) {
        assert Pending(s', h', q, |h.posted[q]|);
      } else {
        var i: nat :| Pending(s, h, k.1, i) && h.posted[k.1][i].cid == k.0;
        assert Pending(s', h', k.1, i);
      }
    }
  }

  lemma PendingAfterPoll(s: State, h: Hist, s': State, h': Hist, q: nat, p: nat, i: nat)
    requires Wired(s) && Tracks(s, h) && Wired(s') && Tracks(s', h')
    requires h'.posted == h.posted && |s'.sqs| == |s.sqs| && q < |s.sqs| && Pending(s, h, q, Consumed(s, h, q))
    requires p < |s.sqs| ==> Consumed(s', h', p) == Consumed(s, h, p) + (if p == q then 1 else 0)
    ensures Pending(s', h', p, i) <==> Pending(s, h, p, i) && (p, i) != (q, Consumed(s, h, q))
  {
  }

  lemma OutAfterPoll(s: State, h: Hist, s': State, h': Hist, q: nat, i0: nat)
    requires Wired(s) && Tracks(s, h) && Wired(s') && Tracks(s', h') && OutInv(s, h)
    requires h'.posted == h.posted && Pending(s, h, q, i0)
    requires s'.outstanding == s.outstanding - {(h.posted[q][i0].cid, q)}
    requires forall p: nat, i: nat :: Pending(s', h', p, i) <==> Pending(s, h, p, i) && (p, i) != (q, i0)
    requires forall i: nat :: Pending(s', h', q, i) ==> i0 < i
    ensures OutInv(s', h')
  {
    forall k | k in s'.outstanding
      ensures exists i: nat :: Pending(s', h', k.1, i) && h'.posted[k.1][i].cid == k.0
    {
      var i: nat :| Pending(s, h, k.1, i) && h.posted[k.1][i].cid == k.0;
      assert Pending(s', h', k.1, i);
    }
  }

  lemma PostPending(s: State, h: Hist, q: nat, sqe: Sqe, p: nat, i: nat)
    requires QueuesInv(s, h) && q < |s.sqs| && PostStep(s, q, sqe).Ok?
    ensures var s', h' := PostStep(s, q, sqe).s, Record(s, h, Post(q, sqe));
            Wired(s') && Tracks(s', h') &&
            (Pending(s', h', p, i) <==> Pending(s, h, p, i) || (p == q && i == |h.posted[q]|))
  {
    PostQueues(s, h, q, sqe);
    assert SqInv(s.sqs[q], h.posted[q], Fetched(s, h, q), Consumed(s, h, q));
  }

  lemma PostOutstanding(s: State, h: Hist, q: nat, sqe: Sqe)
    requires QueuesInv(s, h) && OutInv(s, h) && q < |s.sqs| && PostStep(s, q, sqe).Ok? && FreshCid(s, q)
    ensures var s', h' := PostStep(s, q, sqe).s, Record(s, h, Post(q, sqe));
            Wired(s') && Tracks(s', h') && OutInv(s', h')
  {
    var s', h' := PostStep(s, q, sqe).s, Record(s, h, Post(q, sqe));
    PostPending(s, h, q, sqe, q, 0);
    forall p: nat, i: nat
      ensures Pending(s', h', p, i) <==> Pending(s, h, p, i) || (p == q && i == |h.posted[q]|)
    {
      PostPending(s, h, q, sqe, p, i);
    }
    var entry := sqe.(cid := s.cids.value);
    EnteredListed(s, h, s', h', q, entry);
    EnteredDistinct(s, h, s', h', q, entry);
    EnteredPending(s, h, s', h', q, entry);
  }

  /** Exactly then: posting under a CID that the SQ still has outstanding overwrites that
      entry, and one of the two commands is lost. */
  lemma StaleCidLosesCommand(s: State, h: Hist, q: nat, sqe: Sqe)
    requires QueuesInv(s, h) && OutInv(s, h) && q < |s.sqs| && PostStep(s, q, sqe).Ok?
    requires !FreshCid(s, q)
    ensures var s', h' := PostStep(s, q, sqe).s, Record(s, h, Post(q, sqe));
            Wired(s') && Tracks(s', h') && !OutInv(s', h') && |s'.outstanding| == |s.outstanding|
  {
    PostPending(s, h, q, sqe, q, 0);
    var s', h' := PostStep(s, q, sqe).s, Record(s, h, Post(q, sqe));
    var i: nat :| Pending(s, h, q, i) && h.posted[q][i].cid == s.cids.value;
    PostPending(s, h, q, sqe, q, i);
    PostPending(s, h, q, sqe, q, |h.posted[q]|);
    Clash(s', h', q, i, |h.posted[q]|);
    SameSize(s.outstanding, (s.cids.value, q), Command(q, sqe.(cid := s.cids.value)));
  }

  lemma Clash(s: State, h: Hist, q: nat, i: nat, j: nat)
    requires Wired(s) && Tracks(s, h) && Pending(s, h, q, i) && Pending(s, h, q, j) && i < j
    requires h.posted[q][i].cid == h.posted[q][j].cid
    ensures !PendingDistinct(s, h)
  {
  }

  lemma SameSize<K, V>(m: map<K, V>, k: K, v: V)
    requires k in m
    ensures |m[k := v]| == |m|
  {
    assert m[k := v].Keys == m.Keys;
    assert |m[k := v]| == |m[k := v].Keys| && |m| == |m.Keys|;
  }

  /** Every outstanding entry sits under its own CID and queue. */
  ghost predicate KeyInv(s: State) {
    forall k :: k in s.outstanding ==> s.outstanding[k].q == k.1 && s.outstanding[k].sqe.cid == k.0
  }

  lemma OutKeys(s: State, h: Hist)
    requires Wired(s) && Tracks(s, h) && OutInv(s, h)
    ensures KeyInv(s)
  {
    forall k | k in s.outstanding
      ensures s.outstanding[k].q == k.1 && s.outstanding[k].sqe.cid == k.0
    {
      var i: nat :| Pending(s, h, k.1, i) && h.posted[k.1][i].cid == k.0;
      assert s.outstanding[(h.posted[k.1][i].cid, k.1)] == Command(k.1, h.posted[k.1][i]);
    }
  }

  /** A poll never meets a mismatched command. It raises exactly when the entry it found has
      no outstanding command, and otherwise consumes exactly that entry. */
  lemma PollIsConsuming(s: State, h: Hist, c: nat)
    requires QueuesInv(s, h) && KeyInv(s) && c < |s.cqs|
    ensures !Ready(s.cqs[c]) ==> PollStep(s, c) == Ok(s)
    ensures Ready(s.cqs[c]) ==> h.consumed[c] < |h.comps[c]|
    ensures Ready(s.cqs[c]) ==>
              var cqe := h.comps[c][h.consumed[c]];
              PollStep(s, c) ==
                if (cqe.cid, cqe.sqid) in s.outstanding
                then Ok(Consuming(s, h, c).0.(outstanding := s.outstanding - {(cqe.cid, cqe.sqid)}))
                else Crash(UnknownCommand)
  {
    PollFinds(s, h, c);
  }

  /** Exact outstanding commands exclude that exception. */
  lemma PollKnows(s: State, h: Hist, c: nat)
    requires QueuesInv(s, h) && OutInv(s, h) && c < |s.cqs|
    ensures PollStep(s, c).Ok?
  {
    OutKeys(s, h);
    PollIsConsuming(s, h, c);
    PollFinds(s, h, c);
    if Ready(s.cqs[c]) {
      var q := h.comps[c][h.consumed[c]].sqid;
      assert Pending(s, h, q, Consumed(s, h, q));
    }
  }

  lemma PollQueues(s: State, h: Hist, c: nat)
    requires QueuesInv(s, h) && KeyInv(s) && c < |s.cqs| && Ready(s.cqs[c]) && PollStep(s, c).Ok?
    ensures SameShape(s, PollStep(s, c).s)
    ensures Record(s, h, Poll(c)) == Consuming(s, h, c).1
    ensures QueuesInv(PollStep(s, c).s, Record(s, h, Poll(c)))
  {
    PollIsConsuming(s, h, c);
    PollFinds(s, h, c);
    ConsumingCounts(s, h, c, h.comps[c][h.consumed[c]].sqid);
    ConsumingQueues(s, h, c);
    QueuesIgnoreHost(Consuming(s, h, c).0, Record(s, h, Poll(c)), PollStep(s, c).s);
  }

  lemma PollCounts(s: State, h: Hist, c: nat, p: nat)
    requires QueuesInv(s, h) && KeyInv(s) && c < |s.cqs| && Ready(s.cqs[c]) && PollStep(s, c).Ok? && p < |s.sqs|
    requires h.consumed[c] < |h.comps[c]|
    ensures var s', h' := PollStep(s, c).s, Record(s, h, Poll(c));
            Wired(s') && Tracks(s', h') && |s'.sqs| == |s.sqs| && h'.posted == h.posted &&
            Consumed(s', h', p) == Consumed(s, h, p) + (if p == h.comps[c][h.consumed[c]].sqid then 1 else 0)
  {
    PollQueues(s, h, c);
    ConsumingCounts(s, h, c, p);
  }

  lemma PollOutstanding(s: State, h: Hist, c: nat)
    requires QueuesInv(s, h) && OutInv(s, h) && c < |s.cqs| && Ready(s.cqs[c])
    ensures PollStep(s, c).Ok?
    ensures var s', h' := PollStep(s, c).s, Record(s, h, Poll(c)); Wired(s') && Tracks(s', h') && OutInv(s', h')
  {
    PollKnows(s, h, c);
    OutKeys(s, h);
    PollIsConsuming(s, h, c);
    PollFinds(s, h, c);
    var s', h' := PollStep(s, c).s, Record(s, h, Poll(c));
    var q := h.comps[c][h.consumed[c]].sqid;
    forall p: nat | p < |s.sqs|
      ensures |s'.sqs| == |s.sqs| && Wired(s') && Tracks(s', h')
      ensures Consumed(s', h', p) == Consumed(s, h, p) + (if p == q then 1 else 0)
    {
      PollCounts(s, h, c, p);
    }
    forall p: nat, i: nat
      ensures Pending(s', h', p, i) <==> Pending(s, h, p, i) && (p, i) != (q, Consumed(s, h, q))
    {
      PendingAfterPoll(s, h, s', h', q, p, i);
    }
    OutAfterPoll(s, h, s', h', q, Consumed(s, h, q));
  }

  /** The queue invariant does not look at the outstanding commands or the CID counter. */
  lemma QueuesIgnoreHost(s: State, h: Hist, s': State)
    requires QueuesInv(s, h) && Wired(s')
    requires s' == s.(outstanding := s'.outstanding, cids := s'.cids)
    ensures QueuesInv(s', h)
  {
    forall q | 0 <= q < |s.sqs|
      ensures SqInv(s'.sqs[q], h.posted[q], Fetched(s', h, q), Consumed(s', h, q))
    {
      assert SqInv(s.sqs[q], h.posted[q], Fetched(s, h, q), Consumed(s, h, q));
    }
    forall c, i | 0 <= c < |s.cqs| && 0 <= i < |h.comps[c]|
      ensures CompInv(s', h, c, i)
    {
      assert CompInv(s, h, c, i);
    }
  }

  /** `CidMgr.alloc` walks through [init, max) cyclically. */
  lemma CidFollows(cids: Cids, allocs: nat)
    requires cids.init < cids.max && cids.value == cids.init + allocs % (cids.max - cids.init)
    ensures cids.Alloc().value == cids.init + (allocs + 1) % (cids.max - cids.init)
  {
    AdvanceFollows(allocs, cids.max - cids.init);
  }

  lemma PostCids(s: State, h: Hist, q: nat, sqe: Sqe)
    requires Wired(s) && Tracks(s, h) && CidInv(s, h) && q < |s.sqs|
    ensures var s', h' := PostStep(s, q, sqe).s, Record(s, h, Post(q, sqe));
            Wired(s') && Tracks(s', h') ==> CidInv(s', h')
  {
    CidFollows(s.cids, h.allocs);
  }

  /** Fewer than max - init CIDs allocated since the oldest command that q has outstanding:
      then the next CID is fresh. */
  ghost predicate CidWindow(s: State, h: Hist, q: nat)
    requires Wired(s) && Tracks(s, h) && CidInv(s, h) && q < |s.sqs|
  {
    Consumed(s, h, q) < |h.posted[q]| ==>
      h.allocs - h.stamps[q][Consumed(s, h, q)] < s.cids.max - s.cids.init
  }

  lemma StampsGrow(s: State, h: Hist, q: nat, i: nat, j: nat)
    requires Wired(s) && Tracks(s, h) && CidInv(s, h) && q < |s.sqs| && i <= j < |h.posted[q]|
    ensures |h.stamps[q]| == |h.posted[q]| && h.stamps[q][i] <= h.stamps[q][j] < h.allocs
    ensures h.posted[q][j].cid == s.cids.init + h.stamps[q][j] % (s.cids.max - s.cids.init)
  {
  }

  lemma CidWindowGivesFresh(s: State, h: Hist, q: nat)
    requires Wired(s) && Tracks(s, h) && OutInv(s, h) && CidInv(s, h) && q < |s.sqs| && CidWindow(s, h, q)
    ensures FreshCid(s, q)
  {
    if !FreshCid(s, q) {
      assert ListedPending(s, h);
      var i: nat :| Pending(s, h, q, i) && h.posted[q][i].cid == s.cids.value;
      StampsGrow(s, h, q, Consumed(s, h, q), i);
      Apart(h.stamps[q][i], h.allocs, s.cids.max - s.cids.init);
    }
  }

  // ---- Every step of every run ------------------------------------------------------

  /** What every run keeps, whatever the sizes of the queues and the CIDs in use. */
  ghost predicate Sound(s: State, h: Hist) {
    QueuesInv(s, h) && KeyInv(s) && CidInv(s, h)
  }

  lemma PollShape(s: State, h: Hist, c: nat)
    requires Wired(s) && Tracks(s, h) && c < |s.cqs| && PollStep(s, c).Ok?
    ensures var s', h' := PollStep(s, c).s, Record(s, h, Poll(c));
            Wired(s') && Tracks(s', h') && SameShape(s, s')
  {
    assert Wired(PollStep(s, c).s);
  }

  lemma StepWired(s: State, h: Hist, a: Action)
    requires Wired(s) && Tracks(s, h) && Legal(s, a) && !Step(s, a).Crash?
    ensures Wired(Step(s, a).s) && Tracks(Step(s, a).s, Record(s, h, a))
    ensures SameShape(s, Step(s, a).s)
  {
    match a
    case Post(q, sqe) => PostShape(s, h, q, sqe);
    case Fetch(q) => FetchShape(s, h, q);
    case Complete(sc) => CompleteShape(s, h, sc);
    case Poll(c) => PollShape(s, h, c);
  }

  lemma StepKeys(s: State, a: Action)
    requires Wired(s) && KeyInv(s) && Legal(s, a) && !Step(s, a).Crash?
    ensures KeyInv(Step(s, a).s)
  {
  }

  lemma StepCids(s: State, h: Hist, a: Action)
    requires Wired(s) && Tracks(s, h) && CidInv(s, h) && Legal(s, a) && !Step(s, a).Crash?
    requires Wired(Step(s, a).s) && Tracks(Step(s, a).s, Record(s, h, a))
    ensures CidInv(Step(s, a).s, Record(s, h, a))
  {
    match a
    case Post(q, sqe) => PostCids(s, h, q, sqe);
    case Fetch(_) =>
    case Complete(_) =>
    case Poll(_) =>
  }

  lemma RefusedQueues(s: State, h: Hist, q: nat, sqe: Sqe)
    requires QueuesInv(s, h) && q < |s.sqs| && PostStep(s, q, sqe).SqFull?
    ensures QueuesInv(PostStep(s, q, sqe).s, Record(s, h, Post(q, sqe)))
  {
    var s', h' := PostStep(s, q, sqe).s, Record(s, h, Post(q, sqe));
    QueuesIgnoreHost(s, h, s');
    forall p | 0 <= p < |s.sqs|
      ensures SqInv(s'.sqs[p], h'.posted[p], Fetched(s', h', p), Consumed(s', h', p))
    {
      assert SqInv(s'.sqs[p], h.posted[p], Fetched(s', h, p), Consumed(s', h, p));
    }
    forall c, i | 0 <= c < |s.cqs| && 0 <= i < |h.comps[c]|
      ensures CompInv(s', h', c, i)
    {
      assert CompInv(s', h, c, i);
    }
  }

  lemma StepQueues(s: State, h: Hist, a: Action)
    requires QueuesInv(s, h) && KeyInv(s) && Legal(s, a) && !Step(s, a).Crash?
    ensures QueuesInv(Step(s, a).s, Record(s, h, a))
  {
    match a
    case Post(q, sqe) =>
      if PostStep(s, q, sqe).Ok? {
        PostQueues(s, h, q, sqe);
      } else {
        RefusedQueues(s, h, q, sqe);
      }
    case Fetch(q) => FetchQueues(s, h, q);
    case Complete(sc) => CompleteQueues(s, h, sc);
    case Poll(c) =>
      PollIsConsuming(s, h, c);
      PollFinds(s, h, c);
      if Ready(s.cqs[c]) {
        PollQueues(s, h, c);
      }
  }

  /** Whatever step comes next, the only assertions it can fire are "CQ FULL" at a completion
      and the lookup of an unknown command at a poll. */
  lemma StepSound(s: State, h: Hist, a: Action)
    requires Sound(s, h) && Legal(s, a)
    ensures Step(s, a).Crash? ==>
              (a.Complete? && Step(s, a).fault == CqFull) || (a.Poll? && Step(s, a).fault == UnknownCommand)
    ensures !Step(s, a).Crash? ==> Sound(Step(s, a).s, Record(s, h, a))
  {
    if a.Poll? {
      PollIsConsuming(s, h, a.c);
    }
    if !Step(s, a).Crash? {
      StepQueues(s, h, a);
      StepKeys(s, a);
      StepCids(s, h, a);
    }
  }

  /** With room in every CQ, "CQ FULL" is not one of them. */
  lemma StepRoom(s: State, h: Hist, a: Action)
    requires QueuesInv(s, h) && RoomInv(s) && Legal(s, a)
    ensures Step(s, a) != Crash(CqFull)
    ensures !Step(s, a).Crash? ==> Wired(Step(s, a).s) && RoomInv(Step(s, a).s)
  {
    if a.Complete? {
      CqNotFull(s, h);
    }
    if !Step(s, a).Crash? {
      StepWired(s, h, a);
      RoomKept(s, Step(s, a).s);
    }
  }

  /** A legal step that does not reuse an outstanding CID: a post that goes through takes
      one that its SQ does not have outstanding. */
  ghost predicate Allowed(s: State, a: Action)
    requires Wired(s)
  {
    Legal(s, a) && (a.Post? && Step(s, a).Ok? ==> FreshCid(s, a.q))
  }

  lemma SamePending(s: State, h: Hist, s': State, h': Hist)
    requires Wired(s) && Tracks(s, h) && Wired(s') && Tracks(s', h') && OutInv(s, h)
    requires s'.outstanding == s.outstanding && h'.posted == h.posted && |s'.sqs| == |s.sqs|
    requires forall p :: 0 <= p < |s.sqs| ==> Consumed(s', h', p) == Consumed(s, h, p)
    ensures OutInv(s', h')
  {
    forall p: nat, i: nat
      ensures Pending(s', h', p, i) <==> Pending(s, h, p, i)
    {
    }
    OutSame(s, h, s', h');
  }

  /** The host's bookkeeping does not notice a fetch, a completion or a refused post. */
  lemma DeviceOut(s: State, h: Hist, a: Action)
    requires Wired(s) && Tracks(s, h) && OutInv(s, h) && Legal(s, a) && !a.Poll?
    requires !Step(s, a).Crash? && (a.Post? ==> Step(s, a).SqFull?)
    requires Wired(Step(s, a).s) && Tracks(Step(s, a).s, Record(s, h, a))
    ensures OutInv(Step(s, a).s, Record(s, h, a))
  {
    var s', h' := Step(s, a).s, Record(s, h, a);
    forall p | 0 <= p < |s.sqs|
      ensures |s'.sqs| == |s.sqs| && Consumed(s', h', p) == Consumed(s, h, p)
    {
      var c := s.cqOf[p];
      assert h'.comps[c][..h.consumed[c]] == h.comps[c][..h.consumed[c]];
    }
    SamePending(s, h, s', h');
  }

  /** Without CID reuse the outstanding commands stay exact, and no poll raises. */
  lemma StepOut(s: State, h: Hist, a: Action)
    requires QueuesInv(s, h) && OutInv(s, h) && Allowed(s, a)
    ensures Step(s, a) != Crash(UnknownCommand) && Step(s, a) != Crash(CommandMismatch)
    ensures !Step(s, a).Crash? ==>
              var s', h' := Step(s, a).s, Record(s, h, a); Wired(s') && Tracks(s', h') && OutInv(s', h')
  {
    if a.Poll? {
      PollKnows(s, h, a.c);
      PollFinds(s, h, a.c);
      if Ready(s.cqs[a.c]) {
        PollOutstanding(s, h, a.c);
      }
    } else if a.Post? && Step(s, a).Ok? {
      PostOutstanding(s, h, a.q, a.sqe);
    } else if !Step(s, a).Crash? {
      StepWired(s, h, a);
      DeviceOut(s, h, a);
    }
  }

  /** With room and without CID reuse no step fires an assertion or raises, and every one
      keeps the whole invariant. */
  lemma StepKeeps(s: State, h: Hist, a: Action)
    requires Inv(s, h) && Allowed(s, a)
    ensures !Step(s, a).Crash? && Inv(Step(s, a).s, Record(s, h, a))
  {
    OutKeys(s, h);
    StepSound(s, h, a);
    StepRoom(s, h, a);
    StepOut(s, h, a);
  }

  lemma PostKeeps(s: State, h: Hist, q: nat, sqe: Sqe)
    requires Inv(s, h) && q < |s.sqs| && (PostStep(s, q, sqe).Ok? ==> FreshCid(s, q))
    ensures !PostStep(s, q, sqe).Crash?
    ensures Inv(PostStep(s, q, sqe).s, Record(s, h, Post(q, sqe)))
  {
    StepKeeps(s, h, Post(q, sqe));
  }

  lemma FetchKeeps(s: State, h: Hist, q: nat)
    requires Inv(s, h) && q < |s.sqs| && s.flight.Idle?
    ensures FetchStep(s, q).Ok? && Inv(FetchStep(s, q).s, h)
  {
    StepKeeps(s, h, Fetch(q));
  }

  lemma CompleteKeeps(s: State, h: Hist, sc: nat)
    requires Inv(s, h) && s.flight.Busy?
    ensures CompleteStep(s, sc).Ok?
    ensures Inv(CompleteStep(s, sc).s, Record(s, h, Complete(sc)))
  {
    StepKeeps(s, h, Complete(sc));
  }

  lemma PollKeeps(s: State, h: Hist, c: nat)
    requires Inv(s, h) && c < |s.cqs|
    ensures PollStep(s, c).Ok? && Inv(PollStep(s, c).s, Record(s, h, Poll(c)))
  {
    PollKnows(s, h, c);
    StepKeeps(s, h, Poll(c));
  }
}
