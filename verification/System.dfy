/** Host and simulator as objects over one shared memory. Every call moves the protocol
    state by the step that models it; the protocol's theorems then speak about these objects. */
module System {
  import opened Options
  import opened Ring
  import opened Protocol
  import opened Conservation
  import opened Queues

  /** What a host call reports: done, refused, or one of the assertions and exceptions. */
  datatype Result = Done | Refused | Raised(fault: Fault)

  const ZERO_SQE := Sqe(0, 0, 0, 0, 0, 0, 0)
  const ZERO_CQE := Cqe(0, 0, 0, 0, 0)

  function FreshSq(entries: nat): Sq {
    Sq(entries, seq(entries, _ => ZERO_SQE), 0, 0, 0)
  }

  function FreshCq(entries: nat): Cq {
    Cq(entries, seq(entries, _ => ZERO_CQE), 0, 0, 1)
  }

  function FreshState(sqEntries: seq<nat>, cqEntries: seq<nat>, cqOf: seq<nat>, init: nat, max: nat): State {
    State(
      seq(|sqEntries|, q requires 0 <= q < |sqEntries| => FreshSq(sqEntries[q])),
      seq(|cqEntries|, c requires 0 <= c < |cqEntries| => FreshCq(cqEntries[c])),
      cqOf, Cids(init, max, init), map[], Idle)
  }

  lemma FreshStarted(sqEntries: seq<nat>, cqEntries: seq<nat>, cqOf: seq<nat>, init: nat, max: nat)
    requires |cqOf| == |sqEntries| && init < max
    requires forall q :: 0 <= q < |sqEntries| ==> 0 < sqEntries[q] && cqOf[q] < |cqEntries|
    requires forall c :: 0 <= c < |cqEntries| ==> 0 < cqEntries[c]
    ensures Started(FreshState(sqEntries, cqEntries, cqOf, init, max))
  {
  }

  method NewSqMemory(entries: seq<nat>) returns (mem: seq<array<Sqe>>)
    ensures |mem| == |entries|
    ensures forall q :: 0 <= q < |mem| ==> fresh(mem[q]) && mem[q][..] == FreshSq(entries[q]).slots
    ensures forall p, q :: 0 <= p < q < |mem| ==> mem[p] != mem[q]
  {
    mem := [];
    for i := 0 to |entries|
      invariant |mem| == i
      invariant forall q :: 0 <= q < i ==> fresh(mem[q]) && mem[q][..] == FreshSq(entries[q]).slots
      invariant forall p, q :: 0 <= p < q < i ==> mem[p] != mem[q]
    {
      var a := new Sqe[entries[i]](_ => ZERO_SQE);
      mem := mem + [a];
    }
  }

  method NewCqMemory(entries: seq<nat>) returns (mem: seq<array<Cqe>>)
    ensures |mem| == |entries|
    ensures forall c :: 0 <= c < |mem| ==> fresh(mem[c]) && mem[c][..] == FreshCq(entries[c]).slots
    ensures forall b, c :: 0 <= b < c < |mem| ==> mem[b] != mem[c]
  {
    mem := [];
    for i := 0 to |entries|
      invariant |mem| == i
      invariant forall c :: 0 <= c < i ==> fresh(mem[c]) && mem[c][..] == FreshCq(entries[c]).slots
      invariant forall b, c :: 0 <= b < c < i ==> mem[b] != mem[c]
    {
      var a := new Cqe[entries[i]](_ => ZERO_CQE);
      mem := mem + [a];
    }
  }

  /** One side's SQ objects over the given memory. */
  method NewSqs(mem: seq<array<Sqe>>, doorbells: array<nat>, ghost onHost: bool) returns (sqs: seq<NVMeSubmissionQueue>)
    ensures |sqs| == |mem|
    ensures forall q :: 0 <= q < |sqs| ==>
            fresh(sqs[q]) && SqOver(sqs[q], mem[q], q, doorbells, onHost) && sqs[q].head == 0
  {
    sqs := [];
    for q := 0 to |mem|
      invariant |sqs| == q
      invariant forall i :: 0 <= i < q ==>
                fresh(sqs[i]) && SqOver(sqs[i], mem[i], i, doorbells, onHost) && sqs[i].head == 0
    {
      var sq := new NVMeSubmissionQueue(mem[q], q, doorbells, onHost);
      sqs := sqs + [sq];
    }
  }

  /** One side's CQ objects over the given memory. */
  method NewCqs(mem: seq<array<Cqe>>, doorbells: array<nat>, ghost onHost: bool) returns (cqs: seq<NVMeCompletionQueue>)
    ensures |cqs| == |mem|
    ensures forall c :: 0 <= c < |cqs| ==>
              fresh(cqs[c]) && CqOver(cqs[c], mem[c], c, doorbells, onHost) && cqs[c].tail == 0 && cqs[c].phase == 1
  {
    cqs := [];
    for c := 0 to |mem|
      invariant |cqs| == c
      invariant forall i :: 0 <= i < c ==>
                fresh(cqs[i]) && CqOver(cqs[i], mem[i], i, doorbells, onHost) && cqs[i].tail == 0 && cqs[i].phase == 1
    {
      var cq := new NVMeCompletionQueue(mem[c], c, doorbells, onHost);
      cqs := cqs + [cq];
    }
  }

  ghost predicate SqOver(sq: NVMeSubmissionQueue, mem: array<Sqe>, q: nat, doorbells: array<nat>, onHost: bool) {
    && sq.memory == mem && sq.entries == mem.Length && sq.qid == q
    && sq.doorbells == doorbells && sq.onHost == onHost
  }

  ghost predicate CqOver(cq: NVMeCompletionQueue, mem: array<Cqe>, c: nat, doorbells: array<nat>, onHost: bool) {
    && cq.memory == mem && cq.entries == mem.Length && cq.qid == c
    && cq.doorbells == doorbells && cq.onHost == onHost
  }

  class NVMeSystem {
    const doorbells: array<nat>
    const sqMem: seq<array<Sqe>>
    const cqMem: seq<array<Cqe>>
    const hostSqs: seq<NVMeSubmissionQueue>
    const simSqs: seq<NVMeSubmissionQueue>
    const hostCqs: seq<NVMeCompletionQueue>
    const simCqs: seq<NVMeCompletionQueue>
    /** SQ q completes into CQ cqOf[q]. */
    const cqOf: seq<nat>
    const cidMgr: CidMgr
    var outstanding: map<(nat, nat), Command>
    /** The protocol state these objects hold. */
    ghost var state: State

    /** The two sides' objects sit over the same memory, each queue over its own. */
    ghost predicate Linked() {
      && |hostSqs| == |simSqs| == |cqOf| == |sqMem| && |hostCqs| == |simCqs| == |cqMem|
      && 2 * |sqMem| <= doorbells.Length && 2 * |cqMem| <= doorbells.Length
      && (forall q :: 0 <= q < |sqMem| ==>
            && cqOf[q] < |cqMem|
            && SqOver(hostSqs[q], sqMem[q], q, doorbells, true) && SqOver(simSqs[q], sqMem[q], q, doorbells, false))
      && (forall c :: 0 <= c < |cqMem| ==>
            CqOver(hostCqs[c], cqMem[c], c, doorbells, true) && CqOver(simCqs[c], cqMem[c], c, doorbells, false))
      && (forall p, q :: 0 <= p < q < |sqMem| ==> sqMem[p] != sqMem[q])
      && (forall b, c :: 0 <= b < c < |cqMem| ==> cqMem[b] != cqMem[c])
    }

    ghost function SqView(q: nat): Sq
      requires Linked() && q < |sqMem|
      reads doorbells, sqMem[q], hostSqs[q], simSqs[q]
    {
      Sq(sqMem[q].Length, sqMem[q][..], doorbells[2 * q], hostSqs[q].head, simSqs[q].head)
    }

    ghost function CqView(c: nat): Cq
      requires Linked() && c < |cqMem|
      reads doorbells, cqMem[c], hostCqs[c], simCqs[c]
    {
      Cq(cqMem[c].Length, cqMem[c][..], doorbells[2 * c + 1], simCqs[c].tail, hostCqs[c].phase)
    }

    ghost predicate Mirrors()
      requires Linked()
      reads this, doorbells, sqMem, cqMem, hostSqs, simSqs, hostCqs, simCqs, cidMgr
    {
      && |state.sqs| == |sqMem| && |state.cqs| == |cqMem|
      && (forall q :: 0 <= q < |sqMem| ==> state.sqs[q] == SqView(q))
      && (forall c :: 0 <= c < |cqMem| ==> state.cqs[c] == CqView(c))
      && state.cqOf == cqOf && state.cids == cidMgr.View() && state.outstanding == outstanding
    }

    ghost predicate Valid()
      reads this, doorbells, sqMem, cqMem, hostSqs, simSqs, hostCqs, simCqs, cidMgr
    {
      Linked() && Mirrors() && Wired(state)
    }

    /** Both sides build their queue objects over the given memory, zeroed before. */
    constructor (sqMem: seq<array<Sqe>>, cqMem: seq<array<Cqe>>, doorbells: array<nat>, cqOf: seq<nat>, init: nat,
                 max: nat)
      requires |cqOf| == |sqMem| && 2 * |sqMem| <= doorbells.Length && 2 * |cqMem| <= doorbells.Length
      requires forall q :: 0 <= q < |sqMem| ==> cqOf[q] < |cqMem|
      requires forall p, q :: 0 <= p < q < |sqMem| ==> sqMem[p] != sqMem[q]
      requires forall b, c :: 0 <= b < c < |cqMem| ==> cqMem[b] != cqMem[c]
      ensures Linked() && this.sqMem == sqMem && this.cqMem == cqMem && this.doorbells == doorbells && this.cqOf == cqOf
      ensures forall q :: 0 <= q < |sqMem| ==> SqView(q) == Sq(sqMem[q].Length, sqMem[q][..], doorbells[2 * q], 0, 0)
      ensures forall c :: 0 <= c < |cqMem| ==>
              CqView(c) == Cq(cqMem[c].Length, cqMem[c][..], doorbells[2 * c + 1], 0, 1)
      ensures cidMgr.View() == Cids(init, max, init) && outstanding == map[]
    {
      this.doorbells, this.sqMem, this.cqMem, this.cqOf, outstanding := doorbells, sqMem, cqMem, cqOf, map[];
      var hsqs := NewSqs(sqMem, doorbells, true);
      var ssqs := NewSqs(sqMem, doorbells, false);
      var hcqs := NewCqs(cqMem, doorbells, true);
      var scqs := NewCqs(cqMem, doorbells, false);
      hostSqs, simSqs, hostCqs, simCqs := hsqs, ssqs, hcqs, scqs;
      cidMgr := new CidMgr(init, max);
    }

    // ---- One call on a queue object, and what both sides see of it ------------------

    method HostPosts(q: nat, command: Sqe) returns (ok: bool)
      requires Linked() && q < |sqMem| && SqWired(SqView(q))
      modifies doorbells, sqMem[q]
      ensures var sq := old(SqView(q));
              && (ok <==> !Full(sq.hostHead, sq.tail, sq.entries))
              && SqView(q) ==
                 if ok then sq.(slots := sq.slots[sq.tail := command], tail := Advance(sq.tail, sq.entries)) else sq
      ensures forall p :: 0 <= p < |sqMem| && p != q ==> SqView(p) == old(SqView(p))
      ensures forall c :: 0 <= c < |cqMem| ==> CqView(c) == old(CqView(c))
    {
      ok := hostSqs[q].PostCommand(command);
    }

    method SimFetches(q: nat) returns (slot: Option<nat>)
      requires Linked() && q < |sqMem| && SqWired(SqView(q))
      modifies simSqs[q]
      ensures var sq := old(SqView(q));
              && slot == (if NumEntries(sq.devHead, sq.tail, sq.entries) == 0 then None else Some(sq.devHead))
              && SqView(q) == if slot.None? then sq else sq.(devHead := Advance(sq.devHead, sq.entries))
      ensures forall p :: 0 <= p < |sqMem| && p != q ==> SqView(p) == old(SqView(p))
      ensures forall c :: 0 <= c < |cqMem| ==> CqView(c) == old(CqView(c))
    {
      slot := simSqs[q].GetCommand();
    }

    /** `complete`: fills in the entry and posts it. */
    method SimCompletes(cid: nat, q: nat, c: nat, sc: nat) returns (ok: bool)
      requires Linked() && q < |sqMem| && c < |cqMem| && CqWired(CqView(c))
      modifies simCqs[c], cqMem[c]
      ensures var cq := old(CqView(c));
              && (ok <==> !Full(cq.head, cq.devTail, cq.entries))
              && CqView(c) == if ok then
                   cq.(slots := cq.slots[cq.devTail :=
                                  Stamped(Cqe(cid, q, SqView(q).devHead, sc, 0), cq.slots[cq.devTail])],
                       devTail := Advance(cq.devTail, cq.entries))
                 else cq
      ensures ok ==> cqMem[c][old(simCqs[c].tail)].(p := 0) == Cqe(cid, q, simSqs[q].head, sc, 0)
      ensures forall p :: 0 <= p < |sqMem| ==> SqView(p) == old(SqView(p))
      ensures forall b :: 0 <= b < |cqMem| && b != c ==> CqView(b) == old(CqView(b))
    {
      var cqe := Cqe(cid, simSqs[q].qid, simSqs[q].head, sc, 0);
      ok := simCqs[c].PostCompletion(cqe);
    }

    method HostConsumes(c: nat)
      requires Linked() && c < |cqMem| && CqWired(CqView(c))
      modifies hostCqs[c], doorbells
      ensures CqView(c) == Consume(old(CqView(c)))
      ensures forall p :: 0 <= p < |sqMem| ==> SqView(p) == old(SqView(p))
      ensures forall b :: 0 <= b < |cqMem| && b != c ==> CqView(b) == old(CqView(b))
    {
      hostCqs[c].ConsumeCompletion();
    }

    method HostMovesHead(q: nat, sqhd: nat)
      requires Linked() && q < |sqMem|
      modifies hostSqs[q]
      ensures SqView(q) == old(SqView(q)).(hostHead := sqhd)
      ensures forall p :: 0 <= p < |sqMem| && p != q ==> SqView(p) == old(SqView(p))
      ensures forall c :: 0 <= c < |cqMem| ==> CqView(c) == old(CqView(c))
    {
      hostSqs[q].head := sqhd;
    }

    /** Consumes in the CQ of the command, then moves the head of its SQ. */
    method HostFinishes(q: nat, sqhd: nat)
      requires Linked() && q < |sqMem| && CqWired(CqView(cqOf[q]))
      modifies hostCqs[cqOf[q]], doorbells, hostSqs[q]
      ensures CqView(cqOf[q]) == Consume(old(CqView(cqOf[q])))
      ensures SqView(q) == old(SqView(q)).(hostHead := sqhd)
      ensures forall p :: 0 <= p < |sqMem| && p != q ==> SqView(p) == old(SqView(p))
      ensures forall c :: 0 <= c < |cqMem| && c != cqOf[q] ==> CqView(c) == old(CqView(c))
    {
      HostConsumes(cqOf[q]);
      HostMovesHead(q, sqhd);
    }

    /** The slot at the head and the ready test on it. */
    method HostLooks(c: nat) returns (ready: bool, cqe: Cqe)
      requires Linked() && c < |cqMem| && CqWired(CqView(c))
      ensures ready == Ready(CqView(c)) && cqe == CqView(c).slots[CqView(c).head]
    {
      cqe := hostCqs[c].GetNextCompletion();
      ready := cqe.p == hostCqs[c].phase;
    }

    // ---- The protocol's steps -------------------------------------------------------

    /** First half of `post_command`: takes a CID and posts. The command is not yet among the
        outstanding ones. */
    method PostToQueue(q: nat, sqe: Sqe) returns (ok: bool, command: Command)
      requires Valid() && q < |sqMem|
      modifies this`state, doorbells, sqMem[q], cidMgr
      ensures Valid() && state == Unseen(old(state), q, sqe)
      ensures ok <==> PostStep(old(state), q, sqe).Ok?
      ensures command == Command(q, sqe.(cid := old(state).cids.value))
    {
      ghost var before := state;
      var cid := cidMgr.Alloc();
      command := Command(q, sqe.(cid := cid));
      ok := HostPosts(q, command.sqe);
      PostWired(before, q, sqe);
      state := Unseen(before, q, sqe);
    }

    /** Second half: the command becomes outstanding. */
    method Track(command: Command)
      requires Valid() && command.q < |sqMem|
      modifies this
      ensures Valid() && state == Tracked(old(state), command)
    {
      outstanding := outstanding[(command.sqe.cid, command.q) := command];
      state := Tracked(state, command);
    }

    /** `start_cmd` on SQ q and its CQ, with a device that is not woken by a post. */
    method StartCmd(q: nat, sqe: Sqe) returns (r: Result)
      requires Valid() && q < |sqMem|
      modifies this, doorbells, sqMem[q], cidMgr
      ensures Valid() && state == PostStep(old(state), q, sqe).s
      ensures r == if PostStep(old(state), q, sqe).SqFull? then Refused else Done
    {
      var ok, command := PostToQueue(q, sqe);
      if !ok {
        return Refused;
      }
      Track(command);
      r := Done;
    }

    /** `get_command`: the slot the device now refers to. */
    method Fetch(q: nat) returns (slot: Option<nat>)
      requires Valid() && q < |sqMem| && state.flight.Idle?
      modifies this`state, simSqs[q]
      ensures Valid() && state == FetchStep(old(state), q).s
      ensures state.flight == if slot.None? then Idle else Busy(q, slot.value)
    {
      ghost var before := state;
      slot := SimFetches(q);
      state := FetchStep(before, q).s;
    }

    /** A handler completing the command it holds by reference with status code sc; nothing
        changes when the CQ is full. */
    method Complete(q: nat, slot: nat, sc: nat) returns (r: Result)
      requires Valid() && state.flight == Busy(q, slot)
      modifies this`state, simCqs[cqOf[q]], cqMem[cqOf[q]]
      ensures Valid()
      ensures CompleteStep(old(state), sc).Crash? ==>
              r == Raised(CompleteStep(old(state), sc).fault) && state == old(state)
      ensures CompleteStep(old(state), sc).Ok? ==> r == Done && state == CompleteStep(old(state), sc).s
      ensures r == Done ==>
                cqMem[cqOf[q]][old(simCqs[cqOf[q]].tail)].(p := 0)
                == Cqe(old(sqMem[q][slot].cid), q, simSqs[q].head, sc, 0)
    {
      ghost var before := state;
      var cid := simSqs[q].memory[slot].cid;
      var ok := SimCompletes(cid, q, cqOf[q], sc);
      if !ok {
        return Raised(CqFull);
      }
      state := CompleteStep(before, sc).s;
      r := Done;
    }

    /** An exception in a handler: nobody holds the command any more. */
    ghost method GiveUp()
      requires Valid()
      modifies this`state
      ensures Valid() && state == old(state).(flight := Idle)
    {
      state := state.(flight := Idle);
    }

    /** `complete_command`. The command is off the outstanding ones before the data it read is
        copied out; when the copy raises, the completion stays in its queue. */
    method CompleteCommand(command: Command, posted: bool, cqe: Cqe, copied: bool) returns (r: Result)
      requires Valid() && command.q < |sqMem|
      modifies this, doorbells, hostCqs[cqOf[command.q]], hostSqs[command.q]
      ensures Valid()
      ensures r == if !posted then Raised(NotPosted)
                   else if command.sqe.cid != cqe.cid || command.q != cqe.sqid then Raised(CommandMismatch)
                   else if !copied then Raised(CopyFailed) else Done
      ensures state == if r == Done then Finished(old(state), command.q, cqe)
                       else if r == Raised(CopyFailed) then Unlisted(old(state), (cqe.cid, cqe.sqid)) else old(state)
    {
      if !posted {
        return Raised(NotPosted);
      }
      if command.sqe.cid != cqe.cid || command.q != cqe.sqid {
        return Raised(CommandMismatch);
      }
      Unlist((command.sqe.cid, command.q));
      if !copied {
        return Raised(CopyFailed);
      }
      MoveHeads(command.q, cqe);
      r := Done;
    }

    method MoveHeads(q: nat, cqe: Cqe)
      requires Valid() && q < |sqMem|
      modifies this`state, doorbells, hostCqs[cqOf[q]], hostSqs[q]
      ensures Valid() && state == HeadsMoved(old(state), q, cqe)
    {
      ghost var before := state;
      HostFinishes(q, cqe.sqhd);
      HeadsMovedWired(before, q, cqe);
      state := HeadsMoved(before, q, cqe);
    }

    method Unlist(key: (nat, nat))
      requires Valid()
      modifies this
      ensures Valid() && state == Unlisted(old(state), key)
    {
      outstanding := outstanding - {key};
      state := Unlisted(state, key);
    }

    /** `get_completion`; Refused when nothing is ready. Commands in the outstanding map were
        posted; `copied` says whether the data of the one found, if it reads any, can be copied
        out. */
    method GetCompletion(c: nat, copied: bool) returns (r: Result)
      requires Valid() && c < |cqMem|
      modifies this, doorbells, hostCqs, hostSqs
      ensures Valid()
      ensures PollStep(old(state), c).Crash? ==> r == Raised(PollStep(old(state), c).fault) && state == old(state)
      ensures PollStep(old(state), c).Ok? && !Ready(old(state).cqs[c]) ==> r == Refused && state == old(state)
      ensures PollStep(old(state), c).Ok? && Ready(old(state).cqs[c]) ==>
                if copied then r == Done && state == PollStep(old(state), c).s
                else r == Raised(CopyFailed) && state == Unlisted(old(state), PolledKey(old(state), c))
    {
      var ready, cqe := HostLooks(c);
      if !ready {
        return Refused;
      }
      if (cqe.cid, cqe.sqid) !in outstanding {
        return Raised(UnknownCommand);
      }
      r := CompleteCommand(outstanding[(cqe.cid, cqe.sqid)], true, cqe, copied);
    }
  }

  /** The key of the entry at the head of c. */
  function PolledKey(s: State, c: nat): (nat, nat)
    requires c < |s.cqs| && CqWired(s.cqs[c])
  {
    (s.cqs[c].slots[s.cqs[c].head].cid, s.cqs[c].slots[s.cqs[c].head].sqid)
  }

  function Unlisted(s: State, key: (nat, nat)): State {
    s.(outstanding := s.outstanding - {key})
  }

  /** A copy that raised blocks its CQ: the completion is still the one a poll finds, and its
      command is not outstanding any more. */
  lemma CopyFailureSticks(s: State, c: nat)
    requires Wired(s) && c < |s.cqs| && Ready(s.cqs[c])
    ensures var s' := Unlisted(s, PolledKey(s, c)); Wired(s') && PollStep(s', c) == Crash(UnknownCommand)
  {
  }

  lemma HeadsMovedWired(s: State, q: nat, cqe: Cqe)
    requires Wired(s) && q < |s.sqs|
    ensures Wired(HeadsMoved(s, q, cqe))
  {
  }

  /** The state after a post whose command the host has not yet made outstanding. */
  ghost function Unseen(s: State, q: nat, sqe: Sqe): State
    requires Wired(s) && q < |s.sqs|
  {
    PostStep(s, q, sqe).s.(outstanding := s.outstanding)
  }

  ghost function Tracked(s: State, command: Command): State {
    s.(outstanding := s.outstanding[(command.sqe.cid, command.q) := command])
  }

  lemma PostWired(s: State, q: nat, sqe: Sqe)
    requires Wired(s) && q < |s.sqs|
    ensures Wired(PostStep(s, q, sqe).s) && Wired(Unseen(s, q, sqe))
  {
  }

  /** Fresh queues of the given sizes: a started system. */
  method Start(sqEntries: seq<nat>, cqEntries: seq<nat>, cqOf: seq<nat>, init: nat, max: nat) returns (sys: NVMeSystem)
    requires |cqOf| == |sqEntries| && init < max
    requires forall q :: 0 <= q < |sqEntries| ==> 0 < sqEntries[q] && cqOf[q] < |cqEntries|
    requires forall c :: 0 <= c < |cqEntries| ==> 0 < cqEntries[c]
    ensures sys.Valid() && sys.state == FreshState(sqEntries, cqEntries, cqOf, init, max)
  {
    var doorbells := new nat[2 * |sqEntries| + 2 * |cqEntries|](_ => 0);
    var sqMem := NewSqMemory(sqEntries);
    var cqMem := NewCqMemory(cqEntries);
    sys := new NVMeSystem(sqMem, cqMem, doorbells, cqOf, init, max);
    FreshViews(sys, sqEntries, cqEntries);
    FreshStarted(sqEntries, cqEntries, cqOf, init, max);
    sys.state := FreshState(sqEntries, cqEntries, cqOf, init, max);
  }

  /** Over zeroed memory and doorbells every queue looks fresh. */
  lemma FreshViews(sys: NVMeSystem, sqEntries: seq<nat>, cqEntries: seq<nat>)
    requires sys.Linked() && |sys.sqMem| == |sqEntries| && |sys.cqMem| == |cqEntries|
    requires forall i :: 0 <= i < sys.doorbells.Length ==> sys.doorbells[i] == 0
    requires forall q :: 0 <= q < |sys.sqMem| ==> sys.sqMem[q][..] == FreshSq(sqEntries[q]).slots
    requires forall c :: 0 <= c < |sys.cqMem| ==> sys.cqMem[c][..] == FreshCq(cqEntries[c]).slots
    requires forall q :: 0 <= q < |sys.sqMem| ==> sys.hostSqs[q].head == 0 && sys.simSqs[q].head == 0
    requires forall c :: 0 <= c < |sys.cqMem| ==> sys.simCqs[c].tail == 0 && sys.hostCqs[c].phase == 1
    ensures forall q :: 0 <= q < |sys.sqMem| ==> sys.SqView(q) == FreshSq(sqEntries[q])
    ensures forall c :: 0 <= c < |sys.cqMem| ==> sys.CqView(c) == FreshCq(cqEntries[c])
  {
    forall q | 0 <= q < |sys.sqMem|
      ensures sys.SqView(q) == FreshSq(sqEntries[q])
    {
      assert |FreshSq(sqEntries[q]).slots| == sqEntries[q];
    }
    forall c | 0 <= c < |sys.cqMem|
      ensures sys.CqView(c) == FreshCq(cqEntries[c])
    {
      assert |FreshCq(cqEntries[c]).slots| == cqEntries[c];
    }
  }

  /** One completion consumed in the CQ of SQ q, and the host's head of q moved. */
  ghost function HeadsMoved(s: State, q: nat, cqe: Cqe): State
    requires Wired(s) && q < |s.sqs|
  {
    s.(cqs := s.cqs[s.cqOf[q] := Consume(s.cqs[s.cqOf[q]])],
       sqs := s.sqs[q := s.sqs[q].(hostHead := cqe.sqhd)])
  }

  /** The state once the host has finished a command of SQ q with the given entry. */
  ghost function Finished(s: State, q: nat, cqe: Cqe): State
    requires Wired(s) && q < |s.sqs|
  {
    HeadsMoved(Unlisted(s, (cqe.cid, q)), q, cqe)
  }
}
