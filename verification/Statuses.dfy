/** Which status code a completion carries: the one its handler came to for the command whose
    CID it carries, from the fetch to the poll. */
module Statuses {
  import opened Options
  import opened Ring
  import opened Protocol
  import opened ProtocolSafety
  import opened Conservation

  /** Completion i of c carries the status of its command: with n completions of its SQ before
      it, that is command n of the SQ. */
  ghost predicate Coded(h: Hist, c: nat, i: nat, status: Sqe -> Option<nat>)
    requires c < |h.comps| && i < |h.comps[c]|
  {
    var x := h.comps[c][i];
    var n := Count(h.comps[c][..i], x.sqid);
    x.sqid < |h.posted| && n < |h.posted[x.sqid]| && status(h.posted[x.sqid][n]) == Some(x.sc)
  }

  /** All completions since h do. */
  ghost predicate CodedSince(h: Hist, h': Hist, status: Sqe -> Option<nat>) {
    && |h'.comps| == |h.comps|
    && forall c, i :: 0 <= c < |h.comps| && |h.comps[c]| <= i < |h'.comps[c]| ==> Coded(h', c, i, status)
  }

  /** Only more was posted and completed. */
  ghost predicate Grown(h: Hist, h': Hist) {
    && |h'.comps| == |h.comps| && |h'.posted| == |h.posted|
    && (forall c :: 0 <= c < |h.comps| ==> h.comps[c] <= h'.comps[c])
    && forall q :: 0 <= q < |h.posted| ==> h.posted[q] <= h'.posted[q]
  }

  lemma CodedKept(h: Hist, h': Hist, c: nat, i: nat, status: Sqe -> Option<nat>)
    requires Grown(h, h') && c < |h.comps| && i < |h.comps[c]| && Coded(h, c, i, status)
    ensures Coded(h', c, i, status)
  {
    assert h'.comps[c][..i] == h.comps[c][..i];
  }

  lemma CodedThrough(h: Hist, h1: Hist, h2: Hist, status: Sqe -> Option<nat>)
    requires Grown(h, h1) && Grown(h1, h2) && CodedSince(h, h1, status) && CodedSince(h1, h2, status)
    ensures Grown(h, h2) && CodedSince(h, h2, status)
  {
    forall c, i | 0 <= c < |h.comps| && |h.comps[c]| <= i < |h2.comps[c]|
      ensures Coded(h2, c, i, status)
    {
      if i < |h1.comps[c]| {
        CodedKept(h1, h2, c, i, status);
      }
    }
  }

  lemma {:induction false} RecordGrows(s: State, h: Hist, a: Action)
    requires Wired(s) && Legal(s, a) && Tracks(s, h)
    ensures Grown(h, Record(s, h, a))
  {
  }

  /** The command in the device's hands, read through its reference. */
  ghost function InHand(s: State): Sqe
    requires Wired(s) && s.flight.Busy?
  {
    s.sqs[s.flight.q].slots[s.flight.slot]
  }

  /** A completion with what the handler makes of the command it reads is coded. */
  lemma CompleteCoded(s: State, h: Hist, sc: nat, status: Sqe -> Option<nat>)
    requires QueuesInv(s, h) && s.flight.Busy? && status(InHand(s)) == Some(sc)
    ensures CodedSince(h, Record(s, h, Complete(sc)), status)
  {
    FlightReadsFetched(s, h);
    var c, h' := s.cqOf[s.flight.q], Record(s, h, Complete(sc));
    assert h'.comps[c][..|h.comps[c]|] == h.comps[c];
    assert Coded(h', c, |h.comps[c]|, status);
  }

  /** Every completion of the run carries what the handler makes of the command in hand. */
  ghost predicate Handling(s: State, h: Hist, actions: seq<Action>, status: Sqe -> Option<nat>)
    requires Wired(s) && Tracks(s, h)
    decreases |actions|
  {
    if actions == [] || !Legal(s, actions[0]) then true
    else if actions[0].Complete? && status(InHand(s)) != Some(actions[0].sc) then false
    else if Step(s, actions[0]).Crash? then true
    else
      StepWired(s, h, actions[0]);
      Handling(Step(s, actions[0]).s, Record(s, h, actions[0]), actions[1..], status)
  }

  lemma StepCoded(s: State, h: Hist, a: Action, status: Sqe -> Option<nat>)
    requires QueuesInv(s, h) && Legal(s, a) && (a.Complete? ==> status(InHand(s)) == Some(a.sc))
    ensures CodedSince(h, Record(s, h, a), status)
  {
    if a.Complete? {
      CompleteCoded(s, h, a.sc, status);
    }
  }

  lemma {:induction false} RunCoded(s: State, h: Hist, actions: seq<Action>, status: Sqe -> Option<nat>)
    requires Sound(s, h) && Handling(s, h, actions, status)
    ensures var r := Run(s, h, actions); r.Ended? ==> Grown(h, r.h) && CodedSince(h, r.h, status)
    decreases |actions|
  {
    if actions != [] && Legal(s, actions[0]) && !Step(s, actions[0]).Crash? {
      var a := actions[0];
      StepSound(s, h, a);
      StepCoded(s, h, a, status);
      RecordGrows(s, h, a);
      RunCoded(Step(s, a).s, Record(s, h, a), actions[1..], status);
      if Run(s, h, actions).Ended? {
        CodedThrough(h, Record(s, h, a), Run(s, h, actions).h, status);
      }
    }
  }

  /** The entry is that of command sqe of SQ q, with what its handler came to. */
  ghost predicate Answers(cqe: Cqe, q: nat, sqe: Sqe, status: Sqe -> Option<nat>) {
    cqe.sqid == q && cqe.cid == sqe.cid && status(sqe) == Some(cqe.sc)
  }

  /** The entry a poll finds, read from the completion ring, carries the status of the oldest
      command of its SQ that the host has not consumed. */
  lemma PollFindsStatus(s: State, h: Hist, c: nat, status: Sqe -> Option<nat>)
    requires QueuesInv(s, h) && c < |s.cqs| && Ready(s.cqs[c])
    requires h.consumed[c] < |h.comps[c]| ==> Coded(h, c, h.consumed[c], status)
    ensures var cqe := s.cqs[c].slots[s.cqs[c].head];
            && cqe.sqid < |s.sqs| && s.cqOf[cqe.sqid] == c && Consumed(s, h, cqe.sqid) < |h.posted[cqe.sqid]|
            && var oldest := h.posted[cqe.sqid][Consumed(s, h, cqe.sqid)];
               Answers(cqe, cqe.sqid, oldest, status)
  {
    PollFinds(s, h, c);
  }

  /** In every run from fresh queues whose handlers answer by `status`, whatever the host polls
      carries the status of the very command whose CID it carries. */
  lemma PolledStatus(s: State, actions: seq<Action>, c: nat, status: Sqe -> Option<nat>)
    requires Started(s) && c < |s.cqs|
    ensures QueuesInv(s, NoHist(s))
    ensures var r := Run(s, NoHist(s), actions);
            r.Ended? && Handling(s, NoHist(s), actions, status) ==>
              && QueuesInv(r.s, r.h) && |r.s.cqs| == |s.cqs|
              && (Ready(r.s.cqs[c]) ==>
                    var cqe := r.s.cqs[c].slots[r.s.cqs[c].head];
                    && cqe.sqid < |r.s.sqs| && Consumed(r.s, r.h, cqe.sqid) < |r.h.posted[cqe.sqid]|
                    && var oldest := r.h.posted[cqe.sqid][Consumed(r.s, r.h, cqe.sqid)];
                       Answers(cqe, cqe.sqid, oldest, status))
  {
    RunsAreSafe(s, actions);
    OutKeys(s, NoHist(s));
    var r := Run(s, NoHist(s), actions);
    if r.Ended? && Handling(s, NoHist(s), actions, status) {
      RunKeepsShape(s, NoHist(s), actions);
      StartInv(s);
      RunCoded(s, NoHist(s), actions, status);
      if Ready(r.s.cqs[c]) {
        PollFinds(r.s, r.h, c);
        PollFindsStatus(r.s, r.h, c, status);
      }
    }
  }
}
