/** The queue objects of host and simulator. Each side builds its own, over slot memory and
    doorbells that both share; the registers that are not shared live in the object. */
module Queues {
  import opened Options
  import opened Ring
  import opened Protocol

  /** `CidMgr`. */
  class CidMgr {
    const init: nat
    const max: nat
    var value: nat

    function View(): Cids
      reads this
    {
      Cids(init, max, value)
    }

    constructor (init: nat, max: nat)
      ensures View() == Cids(init, max, init)
    {
      this.init, this.max, value := init, max, init;
    }

    method Alloc() returns (cid: nat)
      modifies this
      ensures cid == old(value) && View() == old(View()).Alloc()
    {
      cid := value;
      value := value + 1;
      if value >= max {
        value := init;
      }
    }
  }

  /** `NVMeSubmissionQueue`: tail in the doorbell of the queue, head private. */
  class NVMeSubmissionQueue {
    const entries: nat
    const qid: nat
    const memory: array<Sqe>
    const doorbells: array<nat>
    ghost const onHost: bool
    var head: nat

    constructor (memory: array<Sqe>, qid: nat, doorbells: array<nat>, ghost onHost: bool)
      ensures this.memory == memory && this.qid == qid && this.doorbells == doorbells && this.onHost == onHost
      ensures entries == memory.Length && head == 0
    {
      this.memory, this.qid, this.doorbells, this.onHost := memory, qid, doorbells, onHost;
      entries, head := memory.Length, 0;
    }

    /** The tail register exists and points at a slot. */
    ghost predicate Usable()
      reads doorbells
    {
      entries == memory.Length && 2 * qid < doorbells.Length && doorbells[2 * qid] < entries
    }

    function Tail(): nat
      requires Usable()
      reads doorbells
    {
      doorbells[2 * qid]
    }

    function NumEntries(): nat
      requires Usable() && head < entries
      reads this, doorbells
    {
      Ring.NumEntries(head, Tail(), entries)
    }

    /** Copies the command into the slot at the tail; false is the "SQ FULL" assertion. */
    method PostCommand(command: Sqe) returns (ok: bool)
      requires Usable()
      modifies memory, doorbells
      ensures ok <==> !Full(head, old(Tail()), entries)
      ensures memory[..] == if ok then old(memory[..])[old(Tail()) := command] else old(memory[..])
      ensures doorbells[..] == if ok then old(doorbells[..])[2 * qid := Advance(old(Tail()), entries)]
              else old(doorbells[..])
    {
      ok := !Full(head, Tail(), entries);
      if ok {
        memory[Tail()] := command;
        doorbells[2 * qid] := Advance(Tail(), entries);
      }
    }

    /** The slot of the next command, by reference; None when the queue is empty. */
    method GetCommand() returns (slot: Option<nat>)
      requires Usable() && head < entries
      modifies this
      ensures slot == if old(NumEntries()) == 0 then None else Some(old(head))
      ensures head == if slot.None? then old(head) else Advance(old(head), entries)
    {
      if NumEntries() == 0 {
        return None;
      }
      slot := Some(head);
      head := Advance(head, entries);
    }
  }

  /** `NVMeCompletionQueue`: head in the doorbell of the queue, tail and phase private. */
  class NVMeCompletionQueue {
    const entries: nat
    const qid: nat
    const memory: array<Cqe>
    const doorbells: array<nat>
    ghost const onHost: bool
    var tail: nat
    var phase: nat

    constructor (memory: array<Cqe>, qid: nat, doorbells: array<nat>, ghost onHost: bool)
      ensures this.memory == memory && this.qid == qid && this.doorbells == doorbells && this.onHost == onHost
      ensures entries == memory.Length && tail == 0 && phase == 1
    {
      this.memory, this.qid, this.doorbells, this.onHost := memory, qid, doorbells, onHost;
      entries, tail, phase := memory.Length, 0, 1;
    }

    /** The head register exists and points at a slot. */
    ghost predicate Usable()
      reads doorbells
    {
      entries == memory.Length && 2 * qid + 1 < doorbells.Length && doorbells[2 * qid + 1] < entries
    }

    function Head(): nat
      requires Usable()
      reads doorbells
    {
      doorbells[2 * qid + 1]
    }

    /** What the slot at the head holds now. */
    function GetNextCompletion(): Cqe
      requires Usable()
      reads doorbells, memory
    {
      memory[Head()]
    }

    method ConsumeCompletion()
      requires Usable()
      modifies this`phase, doorbells
      ensures doorbells[..] == old(doorbells[..])[2 * qid + 1 := Advance(old(Head()), entries)]
      ensures phase == if Advance(old(Head()), entries) != 0 then old(phase) else if old(phase) == 1 then 0 else 1
    {
      doorbells[2 * qid + 1] := Advance(Head(), entries);
      if doorbells[2 * qid + 1] == 0 {
        phase := if phase == 1 then 0 else 1;
      }
    }

    /** Writes the entry with the inverse of the phase bit that is in the slot; false is the
        "CQ FULL" assertion. */
    method PostCompletion(cqe: Cqe) returns (ok: bool)
      requires Usable() && tail < entries
      modifies this`tail, memory
      ensures ok <==> !Full(Head(), old(tail), entries)
      ensures memory[..] == if ok then old(memory[..])[old(tail) := Stamped(cqe, old(memory[..])[old(tail)])]
              else old(memory[..])
      ensures tail == if ok then Advance(old(tail), entries) else old(tail)
    {
      ok := !Full(Head(), tail, entries);
      if ok {
        var phaseBit := memory[tail].p;
        memory[tail] := cqe.(p := if phaseBit == 1 then 0 else 1);
        tail := Advance(tail, entries);
      }
    }
  }
}
