/** The queue-pair protocol between the host and the simulated controller, on values.

    Host and device each keep their own queue objects over the same slot memory. They share
    the slots, the SQ tail doorbell and the CQ head doorbell; the host's SQ head and phase
    and the device's SQ head and CQ tail are private. Several submission queues may feed one
    completion queue. One step is one host call or one half of a device turn: a fetch leaves
    the device holding a reference into slot memory, which it reads only when it completes. */
module Protocol {
  import opened Ring

  /** A submission queue entry, cut down to the fields host and handlers use. */
  datatype Sqe = Sqe(opc: nat, cid: nat, nsid: nat, slba: nat, nlb: nat, prp1: nat, prp2: nat)

  /** A completion queue entry; p is the phase bit. */
  datatype Cqe = Cqe(cid: nat, sqid: nat, sqhd: nat, sc: nat, p: nat)

  datatype Sq = Sq(entries: nat, slots: seq<Sqe>, tail: nat, hostHead: nat, devHead: nat)

  datatype Cq = Cq(entries: nat, slots: seq<Cqe>, head: nat, devTail: nat, phase: nat)

  /** `CidMgr`. */
  datatype Cids = Cids(init: nat, max: nat, value: nat) {
    function Alloc(): Cids {
      this.(value := if value + 1 >= max then init else value + 1)
    }
  }

  /** A host command object: the queue it was posted on and the entry that was copied out. */
  datatype Command = Command(q: nat, sqe: Sqe)

  /** What the single device actor is doing: nothing, or handling the command it fetched
      by reference from a slot of SQ q. */
  datatype Flight = Idle | Busy(q: nat, slot: nat)

  /** Queue q of `sqs` has qid q and completes into `cqs[cqOf[q]]`. */
  datatype State = State(
    sqs: seq<Sq>, cqs: seq<Cq>, cqOf: seq<nat>,
    cids: Cids, outstanding: map<(nat, nat), Command>, flight: Flight)

  datatype Action =
    | Post(q: nat, sqe: Sqe)
    | Fetch(sq: nat)
    | Complete(sc: nat)
    | Poll(c: nat)

  /** Each is one assertion or exception of the source. The protocol's own steps raise the
      first three; the others come from the code around them. */
  datatype Fault = CqFull | UnknownCommand | CommandMismatch | NotPosted | CopyFailed | NoAdminPair | HandlerRaised

  datatype Outcome = Ok(s: State) | SqFull(s: State) | Crash(fault: Fault)

  /** Every index a state holds refers to something that exists. */
  ghost predicate Wired(s: State) {
    && |s.cqOf| == |s.sqs|
    && (forall q :: 0 <= q < |s.sqs| ==> s.cqOf[q] < |s.cqs|)
    && (forall q :: 0 <= q < |s.sqs| ==> SqWired(s.sqs[q]))
    && (forall c :: 0 <= c < |s.cqs| ==> CqWired(s.cqs[c]))
    && (forall k :: k in s.outstanding ==> s.outstanding[k].q < |s.sqs|)
    && (s.flight.Busy? ==> s.flight.q < |s.sqs| && s.flight.slot < s.sqs[s.flight.q].entries)
  }

  predicate SqWired(sq: Sq) {
    |sq.slots| == sq.entries && sq.tail < sq.entries && sq.devHead < sq.entries
  }

  predicate CqWired(cq: Cq) {
    |cq.slots| == cq.entries && cq.head < cq.entries && cq.devTail < cq.entries
  }

  /** Which actions make sense: the queue exists, and the device alternates fetch and complete. */
  predicate Legal(s: State, a: Action) {
    match a
    case Post(q, _) => q < |s.sqs|
    case Fetch(q) => q < |s.sqs| && s.flight.Idle?
    case Complete(_) => s.flight.Busy?
    case Poll(c) => c < |s.cqs|
  }

  /** `start_cmd`: a CID is taken first, and it stays taken when the queue turns out full. */
  ghost function PostStep(s: State, q: nat, sqe: Sqe): Outcome
    requires Wired(s) && q < |s.sqs|
  {
    var sq := s.sqs[q];
    var entry := sqe.(cid := s.cids.value);
    var s' := s.(cids := s.cids.Alloc());
    if Full(sq.hostHead, sq.tail, sq.entries) then SqFull(s')
    else
      var sq' := sq.(slots := sq.slots[sq.tail := entry], tail := Advance(sq.tail, sq.entries));
      Ok(s'.(sqs := s.sqs[q := sq'],
             outstanding := s.outstanding[(entry.cid, q) := Command(q, entry)]))
  }

  /** `get_command` on the device's queue object. */
  ghost function FetchStep(s: State, q: nat): Outcome
    requires Wired(s) && q < |s.sqs|
  {
    var sq := s.sqs[q];
    if NumEntries(sq.devHead, sq.tail, sq.entries) == 0 then Ok(s)
    else Ok(s.(sqs := s.sqs[q := sq.(devHead := Advance(sq.devHead, sq.entries))],
               flight := Busy(q, sq.devHead)))
  }

  /** The entry a completion writes; its phase bit is the inverse of the bit in the slot. */
  function Stamped(cqe: Cqe, prior: Cqe): Cqe {
    cqe.(p := if prior.p == 1 then 0 else 1)
  }

  /** The handler's `complete`: reads the CID through the reference taken at fetch time. */
  ghost function CompleteStep(s: State, sc: nat): Outcome
    requires Wired(s) && s.flight.Busy?
  {
    var q := s.flight.q;
    var sq := s.sqs[q];
    var c := s.cqOf[q];
    var cq := s.cqs[c];
    if Full(cq.head, cq.devTail, cq.entries) then Crash(CqFull)
    else
      var cqe := Cqe(sq.slots[s.flight.slot].cid, q, sq.devHead, sc, 0);
      var cq' := cq.(slots := cq.slots[cq.devTail := Stamped(cqe, cq.slots[cq.devTail])],
                     devTail := Advance(cq.devTail, cq.entries));
      Ok(s.(cqs := s.cqs[c := cq'], flight := Idle))
  }

  /** The host's ready test. */
  predicate Ready(cq: Cq)
    requires cq.head < |cq.slots|
  {
    cq.slots[cq.head].p == cq.phase
  }

  /** `consume_completion`. */
  function Consume(cq: Cq): Cq {
    var head := Advance(cq.head, cq.entries);
    cq.(head := head, phase := if head != 0 then cq.phase else if cq.phase == 1 then 0 else 1)
  }

  /** `get_completion` and `complete_command`. */
  ghost function PollStep(s: State, c: nat): Outcome
    requires Wired(s) && c < |s.cqs|
  {
    var cq := s.cqs[c];
    if !Ready(cq) then Ok(s)
    else
      var cqe := cq.slots[cq.head];
      var key := (cqe.cid, cqe.sqid);
      if key !in s.outstanding then Crash(UnknownCommand)
      else
        var command := s.outstanding[key];
        if command.sqe.cid != cqe.cid || command.q != cqe.sqid then Crash(CommandMismatch)
        else
          var q := command.q;
          Ok(s.(outstanding := s.outstanding - {key},
                cqs := s.cqs[s.cqOf[q] := Consume(s.cqs[s.cqOf[q]])],
                sqs := s.sqs[q := s.sqs[q].(hostHead := cqe.sqhd)]))
  }

  ghost function Step(s: State, a: Action): Outcome
    requires Wired(s) && Legal(s, a)
  {
    match a
    case Post(q, sqe) => PostStep(s, q, sqe)
    case Fetch(q) => FetchStep(s, q)
    case Complete(sc) => CompleteStep(s, sc)
    case Poll(c) => PollStep(s, c)
  }

  /** What has happened so far: everything posted per SQ, with the number of the CID
      allocation it used, every completion per CQ (phase bit left 0), and how many of those
      the host consumed. */
  datatype Hist = Hist(
    posted: seq<seq<Sqe>>, stamps: seq<seq<nat>>, allocs: nat,
    comps: seq<seq<Cqe>>, consumed: seq<nat>)

  ghost predicate Tracks(s: State, h: Hist) {
    && |h.posted| == |h.stamps| == |s.sqs|
    && |h.comps| == |h.consumed| == |s.cqs|
    && (forall c :: 0 <= c < |s.cqs| ==> h.consumed[c] <= |h.comps[c]|)
  }

  /** The history after a step that did not crash. */
  ghost function Record(s: State, h: Hist, a: Action): Hist
    requires Wired(s) && Legal(s, a) && Tracks(s, h)
  {
    match a
    case Post(q, sqe) =>
      var h' := h.(allocs := h.allocs + 1);
      if Step(s, a).SqFull? then h'
      else h'.(posted := h.posted[q := h.posted[q] + [sqe.(cid := s.cids.value)]],
               stamps := h.stamps[q := h.stamps[q] + [h.allocs]])
    case Fetch(_) => h
    case Complete(sc) =>
      var q := s.flight.q;
      var c := s.cqOf[q];
      var cqe := Cqe(s.sqs[q].slots[s.flight.slot].cid, q, s.sqs[q].devHead, sc, 0);
      h.(comps := h.comps[c := h.comps[c] + [cqe]])
    case Poll(c) =>
      if Ready(s.cqs[c]) && h.consumed[c] < |h.comps[c]|
      then h.(consumed := h.consumed[c := h.consumed[c] + 1])
      else h
  }

  /** How many of the completions carry SQID q. */
  ghost function Count(t: seq<Cqe>, q: nat): nat {
    if t == [] then 0 else Count(t[..|t| - 1], q) + (if t[|t| - 1].sqid == q then 1 else 0)
  }

  /** Commands of q the device has completed, fetched, and the host has consumed. */
  ghost function Completed(s: State, h: Hist, q: nat): nat
    requires Wired(s) && Tracks(s, h) && q < |s.sqs|
  {
    Count(h.comps[s.cqOf[q]], q)
  }

  ghost function Fetched(s: State, h: Hist, q: nat): nat
    requires Wired(s) && Tracks(s, h) && q < |s.sqs|
  {
    Completed(s, h, q) + (if s.flight.Busy? && s.flight.q == q then 1 else 0)
  }

  ghost function Consumed(s: State, h: Hist, q: nat): nat
    requires Wired(s) && Tracks(s, h) && q < |s.sqs|
  {
    Count(h.comps[s.cqOf[q]][..h.consumed[s.cqOf[q]]], q)
  }

  /** Most commands the SQs feeding c can have outstanding, over the first n SQs. */
  ghost function Demand(s: State, c: nat, n: nat): nat
    requires Wired(s) && n <= |s.sqs|
  {
    if n == 0 then 0
    else Demand(s, c, n - 1) + (if s.cqOf[n - 1] == c then s.sqs[n - 1].entries - 1 else 0)
  }

  /** A CQ large enough for every SQ that feeds it. With one SQ per CQ this says that the CQ
      has at least as many entries as its SQ. */
  ghost predicate RoomFor(s: State, c: nat)
    requires Wired(s) && c < |s.cqs|
  {
    Demand(s, c, |s.sqs|) + 1 <= s.cqs[c].entries
  }

  /** SQ registers follow the counters, and every posted command the host has not consumed
      is still in its slot. */
  ghost predicate SqInv(sq: Sq, posted: seq<Sqe>, fetched: nat, consumed: nat) {
    && SqWired(sq)
    && consumed <= fetched <= |posted| < consumed + sq.entries
    && sq.tail == |posted| % sq.entries
    && sq.devHead == fetched % sq.entries
    && sq.hostHead == consumed % sq.entries
    && (forall i {:trigger posted[i]} :: consumed <= i < |posted| ==> sq.slots[i % sq.entries] == posted[i])
  }

  /** Phase bit of lap n / e, for writer (P of the slot written) and reader (its phase). */
  function LapPhase(n: nat, e: nat): nat
    requires 0 < e
  {
    (n / e + 1) % 2
  }

  /** How often slot j has been written after n completions. */
  function Writes(j: nat, n: nat, e: nat): nat
    requires 0 < e
  {
    n / e + (if j < n % e then 1 else 0)
  }

  ghost predicate CqInv(cq: Cq, comps: seq<Cqe>, consumed: nat) {
    && CqWired(cq)
    && consumed <= |comps| < consumed + cq.entries
    && cq.head == consumed % cq.entries
    && cq.devTail == |comps| % cq.entries
    && cq.phase == LapPhase(consumed, cq.entries)
    && (forall j :: 0 <= j < cq.entries ==> cq.slots[j].p == Writes(j, |comps|, cq.entries) % 2)
    && (forall i {:trigger comps[i]} :: consumed <= i < |comps| ==> cq.slots[i % cq.entries].(p := 0) == comps[i])
  }

  /** The i-th completion of c belongs to the next uncompleted command of its SQ: it
      carries that command's CID and that SQ's id and head. */
  ghost predicate CompInv(s: State, h: Hist, c: nat, i: nat)
    requires Wired(s) && Tracks(s, h) && c < |s.cqs| && i < |h.comps[c]|
  {
    var cqe := h.comps[c][i];
    var n := Count(h.comps[c][..i], cqe.sqid);
    && cqe.sqid < |s.sqs| && s.cqOf[cqe.sqid] == c
    && n < |h.posted[cqe.sqid]|
    && cqe.cid == h.posted[cqe.sqid][n].cid
    && cqe.sqhd == (n + 1) % s.sqs[cqe.sqid].entries
    && cqe.p == 0
  }

  /** The index of the oldest posted command of q that the host has not consumed, up to the
      newest: command i of SQ q is outstanding. */
  ghost predicate Pending(s: State, h: Hist, q: nat, i: nat)
    requires Wired(s) && Tracks(s, h)
  {
    q < |s.sqs| && Consumed(s, h, q) <= i < |h.posted[q]|
  }

  /** Every pending command is listed in `outstanding_commands` under its own key. */
  ghost predicate PendingListed(s: State, h: Hist)
    requires Wired(s) && Tracks(s, h)
  {
    forall q: nat, i: nat :: Pending(s, h, q, i) ==>
      (h.posted[q][i].cid, q) in s.outstanding &&
      s.outstanding[(h.posted[q][i].cid, q)] == Command(q, h.posted[q][i])
  }

  /** No SQ has two pending commands with the same CID. */
  ghost predicate PendingDistinct(s: State, h: Hist)
    requires Wired(s) && Tracks(s, h)
  {
    forall q: nat, i: nat, j: nat :: Pending(s, h, q, i) && Pending(s, h, q, j) && i < j ==>
      h.posted[q][i].cid != h.posted[q][j].cid
  }

  /** Every key is that of a pending command. */
  ghost predicate ListedPending(s: State, h: Hist)
    requires Wired(s) && Tracks(s, h)
  {
    forall k :: k in s.outstanding ==>
      exists i: nat :: Pending(s, h, k.1, i) && h.posted[k.1][i].cid == k.0
  }

  /** `outstanding_commands` holds exactly the pending commands, each under its own key. */
  ghost predicate OutInv(s: State, h: Hist)
    requires Wired(s) && Tracks(s, h)
  {
    PendingListed(s, h) && PendingDistinct(s, h) && ListedPending(s, h)
  }

  /** CIDs come from the allocation numbers, which grow along each SQ. */
  ghost predicate CidInv(s: State, h: Hist)
    requires Wired(s) && Tracks(s, h)
  {
    && s.cids.init < s.cids.max
    && s.cids.value == s.cids.init + h.allocs % (s.cids.max - s.cids.init)
    && (forall q :: 0 <= q < |s.sqs| ==> |h.stamps[q]| == |h.posted[q]|)
    && (forall q, i :: 0 <= q < |s.sqs| && 0 <= i < |h.posted[q]| ==>
          h.stamps[q][i] < h.allocs &&
          h.posted[q][i].cid == s.cids.init + h.stamps[q][i] % (s.cids.max - s.cids.init))
    && (forall q, i, j :: 0 <= q < |s.sqs| && 0 <= i < j < |h.posted[q]| ==>
          h.stamps[q][i] < h.stamps[q][j])
  }

  ghost predicate FlightInv(s: State, h: Hist)
    requires Wired(s) && Tracks(s, h)
  {
    s.flight.Busy? ==>
      s.flight.slot == Completed(s, h, s.flight.q) % s.sqs[s.flight.q].entries
  }

  ghost predicate RoomInv(s: State)
    requires Wired(s)
  {
    forall c :: 0 <= c < |s.cqs| ==> RoomFor(s, c)
  }

  ghost predicate SqsInv(s: State, h: Hist)
    requires Wired(s) && Tracks(s, h)
  {
    forall q :: 0 <= q < |s.sqs| ==> SqInv(s.sqs[q], h.posted[q], Fetched(s, h, q), Consumed(s, h, q))
  }

  ghost predicate CqsInv(s: State, h: Hist)
    requires Wired(s) && Tracks(s, h)
  {
    forall c :: 0 <= c < |s.cqs| ==> CqInv(s.cqs[c], h.comps[c], h.consumed[c])
  }

  ghost predicate CompsInv(s: State, h: Hist)
    requires Wired(s) && Tracks(s, h)
  {
    forall c, i :: 0 <= c < |s.cqs| && 0 <= i < |h.comps[c]| ==> CompInv(s, h, c, i)
  }

  ghost predicate QueuesInv(s: State, h: Hist) {
    && Wired(s) && Tracks(s, h) && FlightInv(s, h)
    && SqsInv(s, h) && CqsInv(s, h) && CompsInv(s, h)
  }

  /** The invariant of every run. */
  ghost predicate Inv(s: State, h: Hist) {
    QueuesInv(s, h) && RoomInv(s) && OutInv(s, h) && CidInv(s, h)
  }
}
