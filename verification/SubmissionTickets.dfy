/**
 The chain of submission tickets of one endpoint: HTTP admission order is kept without
 a queue, by every job waiting for the ticket of the job admitted before it.
 */
module SubmissionTickets {
  import opened Wrappers

  /**
   One admitted job. `settled` is set when its submission has returned or raised; `done`
   when its ticket's future has a result. A settled ticket that is not done has left its
   release behind as a callback on its predecessor.
   */
  datatype Ticket = Ticket(predecessor: Option<nat>, submitting: bool, settled: bool, done: bool)

  /** The tickets in admission order, the registry's tail, and the submit loops entered so far. */
  datatype Chain = Chain(tickets: seq<Ticket>, tail: Option<nat>, entries: seq<nat>)

  const EMPTY := Chain([], None, [])

  datatype Op = Admit | Enter(job: nat) | Settle(job: nat) | Fire(job: nat)

  predicate PredecessorDone(c: Chain, j: nat)
    requires j < |c.tickets|
  {
    var p := c.tickets[j].predecessor;
    p.None? || (p.value < |c.tickets| && c.tickets[p.value].done)
  }

  /** Whether the event loop may take this step. */
  predicate Enabled(c: Chain, op: Op) {
    match op
    case Admit => true
    case Enter(j) =>
      && j < |c.tickets|
      && !c.tickets[j].settled && !c.tickets[j].submitting && j !in c.entries
      && PredecessorDone(c, j)
    case Settle(j) => j < |c.tickets| && !c.tickets[j].settled
    case Fire(j) => j < |c.tickets| && c.tickets[j].settled && !c.tickets[j].done && PredecessorDone(c, j)
  }

  /** Complete a ticket, and take it off the registry when it is still the tail. */
  function Release(c: Chain, j: nat): Chain
    requires j < |c.tickets|
  {
    Chain(
      c.tickets[j := c.tickets[j].(done := true)],
      if c.tail == Some(j) then None else c.tail,
      c.entries)
  }

  function Apply(c: Chain, op: Op): Chain
    requires Enabled(c, op)
  {
    match op
    case Admit => Chain(c.tickets + [Ticket(c.tail, false, false, false)], Some(|c.tickets|), c.entries)
    case Enter(j) => Chain(c.tickets[j := c.tickets[j].(submitting := true)], c.tail, c.entries + [j])
    case Settle(j) =>
      var left := Chain(c.tickets[j := c.tickets[j].(submitting := false, settled := true)], c.tail, c.entries);
      if PredecessorDone(left, j) then Release(left, j) else left
    case Fire(j) => Release(c, j)
  }

  ghost predicate Allowed(c: Chain, ops: seq<Op>)
    decreases |ops|
  {
    ops != [] ==> Enabled(c, ops[0]) && Allowed(Apply(c, ops[0]), ops[1..])
  }

  ghost function Run(c: Chain, ops: seq<Op>): Chain
    requires Allowed(c, ops)
    decreases |ops|
  {
    if ops == [] then c else Run(Apply(c, ops[0]), ops[1..])
  }

  // --- The registry itself -----------------------------------------------

  /** The endpoint's registry entry and its futures, updated in place. */
  class TicketRegistry {
    var tickets: seq<Ticket>
    var tail: Option<nat>
    ghost var entries: seq<nat>

    ghost function State(): Chain
      reads this
    {
      Chain(tickets, tail, entries)
    }

    constructor ()
      ensures State() == EMPTY
    {
      tickets, tail, entries := [], None, [];
    }

    /** Under the ticket lock: wait for the current tail and become the tail. */
    method AdmitJob() returns (job: nat)
      modifies this
      ensures job == |old(tickets)|
      ensures State() == Apply(old(State()), Admit)
    {
      job := |tickets|;
      tickets := tickets + [Ticket(tail, false, false, false)];
      tail := Some(job);
    }

    method EnterLoop(job: nat)
      requires Enabled(State(), Enter(job))
      modifies this
      ensures State() == Apply(old(State()), Enter(job))
    {
      tickets := tickets[job := tickets[job].(submitting := true)];
      entries := entries + [job];
    }

    method ReleaseTicket(job: nat)
      requires job < |tickets|
      modifies this`tickets, this`tail
      ensures State() == Release(old(State()), job)
    {
      tickets := tickets[job := tickets[job].(done := true)];
      if tail == Some(job) {
        tail := None;
      }
    }

    /** Settling twice does nothing; an unfinished predecessor is proxied by a callback. */
    method SettleTicket(job: nat)
      requires job < |tickets|
      modifies this`tickets, this`tail
      ensures State() == if Enabled(old(State()), Settle(job)) then Apply(old(State()), Settle(job)) else old(State())
    {
      if tickets[job].settled {
        return;
      }
      tickets := tickets[job := tickets[job].(submitting := false, settled := true)];
      var p := tickets[job].predecessor;
      if p.None? || (p.value < |tickets| && tickets[p.value].done) {
        ReleaseTicket(job);
      }
    }
  }

  // --- What every run keeps ----------------------------------------------

  ghost predicate EarlierDone(c: Chain, j: nat)
    requires j <= |c.tickets|
  {
    forall i | 0 <= i < j :: c.tickets[i].done
  }

  ghost predicate TicketInv(c: Chain, j: nat)
    requires j < |c.tickets|
  {
    var t := c.tickets[j];
    && (t.predecessor.None? ==> EarlierDone(c, j))
    && (t.predecessor.Some? ==> j > 0 && t.predecessor.value == j - 1)
    && (t.done ==> t.settled && EarlierDone(c, j))
    && (t.submitting ==> !t.settled && EarlierDone(c, j) && j in c.entries)
  }

  ghost predicate Inv(c: Chain) {
    && (forall j | 0 <= j < |c.tickets| :: TicketInv(c, j))
    && (c.tail.None? ==> EarlierDone(c, |c.tickets|))
    && (c.tail.Some? ==> c.tail.value == |c.tickets| - 1 && !c.tickets[c.tail.value].done)
    && (forall k | 0 <= k < |c.entries| :: c.entries[k] < |c.tickets| && EarlierDone(c, c.entries[k]))
    && (forall k, l | 0 <= k < l < |c.entries| :: c.entries[k] < c.entries[l])
  }

  /** A finished predecessor means everything admitted earlier is finished. */
  lemma PredecessorSpeaksForAll(c: Chain, j: nat)
    requires Inv(c) && j < |c.tickets|
    ensures PredecessorDone(c, j) <==> EarlierDone(c, j)
  {
    assert TicketInv(c, j);
    if c.tickets[j].predecessor.Some? { assert TicketInv(c, j - 1); }
  }

  lemma AdmitKeeps(c: Chain)
    requires Inv(c)
    ensures Inv(Apply(c, Admit))
  {
    var d := Apply(c, Admit);
    forall j | 0 <= j < |d.tickets| ensures TicketInv(d, j) {
      if j < |c.tickets| { assert TicketInv(c, j); }
    }
    forall k | 0 <= k < |d.entries| ensures EarlierDone(d, d.entries[k]) {
      assert EarlierDone(c, c.entries[k]);
    }
  }

  lemma EnterKeeps(c: Chain, j: nat)
    requires Inv(c) && Enabled(c, Enter(j))
    ensures Inv(Apply(c, Enter(j)))
  {
    var d := Apply(c, Enter(j));
    PredecessorSpeaksForAll(c, j);
    assert d.entries[|c.entries|] == j;
    forall i | 0 <= i < |d.tickets| ensures TicketInv(d, i) {
      assert TicketInv(c, i);
    }
    forall k | 0 <= k < |c.entries| ensures c.entries[k] < j {
      assert EarlierDone(c, c.entries[k]) && TicketInv(c, j);
      assert !c.tickets[j].done;
    }
  }

  lemma ReleaseKeeps(c: Chain, j: nat)
    requires Inv(c) && j < |c.tickets| && c.tickets[j].settled && !c.tickets[j].done && PredecessorDone(c, j)
    ensures Inv(Release(c, j))
  {
    var d := Release(c, j);
    PredecessorSpeaksForAll(c, j);
    forall i | 0 <= i < |d.tickets| ensures TicketInv(d, i) {
      assert TicketInv(c, i);
    }
    if c.tail == Some(j) {
      assert EarlierDone(d, |d.tickets|);
    }
  }

  lemma LeaveKeeps(c: Chain, j: nat)
    requires Inv(c) && Enabled(c, Settle(j))
    ensures Inv(c.(tickets := c.tickets[j := c.tickets[j].(submitting := false, settled := true)]))
  {
    var d := c.(tickets := c.tickets[j := c.tickets[j].(submitting := false, settled := true)]);
    forall i | 0 <= i < |d.tickets| ensures TicketInv(d, i) {
      assert TicketInv(c, i);
    }
    forall k | 0 <= k < |d.entries| ensures EarlierDone(d, d.entries[k]) {
      assert EarlierDone(c, c.entries[k]);
    }
  }

  lemma StepKeeps(c: Chain, op: Op)
    requires Inv(c) && Enabled(c, op)
    ensures Inv(Apply(c, op))
  {
    match op
    case Admit => AdmitKeeps(c);
    case Enter(j) => EnterKeeps(c, j);
    case Fire(j) => ReleaseKeeps(c, j);
    case Settle(j) =>
      LeaveKeeps(c, j);
      var left := c.(tickets := c.tickets[j := c.tickets[j].(submitting := false, settled := true)]);
      if PredecessorDone(left, j) {
        assert TicketInv(c, j);
        ReleaseKeeps(left, j);
      }
  }

  lemma {:induction false} RunKeeps(c: Chain, ops: seq<Op>)
    requires Inv(c) && Allowed(c, ops)
    ensures Inv(Run(c, ops))
    decreases |ops|
  {
    if ops != [] {
      StepKeeps(c, ops[0]);
      RunKeeps(Apply(c, ops[0]), ops[1..]);
    }
  }

  // --- What each step does to the chain ----------------------------------

  /** A job waits for the one admitted just before it exactly while something earlier is unfinished. */
  lemma AdmissionWaitsForTail(c: Chain)
    requires Inv(c)
    ensures var d := Apply(c, Admit);
            var t := d.tickets[|c.tickets|];
            && |d.tickets| == |c.tickets| + 1 && d.tickets[..|c.tickets|] == c.tickets && d.tail == Some(|c.tickets|)
            && !t.submitting && !t.settled && !t.done && d.entries == c.entries
            && (t.predecessor.None? <==> EarlierDone(c, |c.tickets|))
            && (t.predecessor.Some? ==> t.predecessor.value == |c.tickets| - 1)
  {
  }

  /** A job whose turn has come may enter its loop, unless it has been there or has settled. */
  lemma TurnComes(c: Chain, j: nat)
    requires Inv(c) && j < |c.tickets| && EarlierDone(c, j) && !c.tickets[j].settled && j !in c.entries
    ensures Enabled(c, Enter(j)) && Apply(c, Enter(j)).tickets[j].submitting && Apply(c, Enter(j)).entries == c.entries + [j]
  {
    assert TicketInv(c, j);
  }

  /**
   A settled job has left its loop, and its ticket completes at once exactly when every
   earlier one has; no other ticket changes, and an idle registry forgets its tail.
   */
  lemma SettlingReleasesInTurn(c: Chain, j: nat)
    requires Inv(c) && j < |c.tickets| && !c.tickets[j].settled
    ensures Enabled(c, Settle(j))
    ensures var d := Apply(c, Settle(j));
            && |d.tickets| == |c.tickets| && d.tickets[j].settled && !d.tickets[j].submitting
            && (d.tickets[j].done <==> EarlierDone(c, j))
            && (forall i | 0 <= i < |c.tickets| && i != j :: d.tickets[i] == c.tickets[i])
            && d.tickets[j].predecessor == c.tickets[j].predecessor && d.entries == c.entries
            && (d.tail == c.tail || (c.tail == Some(j) && d.tail == None && d.tickets[j].done))
  {
    assert TicketInv(c, j);
    PredecessorSpeaksForAll(c, j);
  }

  /** A settled ticket whose turn has come can be completed, and completing it changes no other. */
  lemma CallbackCompletes(c: Chain, j: nat)
    requires Inv(c) && j < |c.tickets| && c.tickets[j].settled && !c.tickets[j].done && EarlierDone(c, j)
    ensures Enabled(c, Fire(j))
    ensures var d := Apply(c, Fire(j));
            && d.tickets == c.tickets[j := c.tickets[j].(done := true)] && d.entries == c.entries
            && (d.tail.None? <==> forall i | 0 <= i < |d.tickets| :: d.tickets[i].done)
  {
    PredecessorSpeaksForAll(c, j);
    ReleaseKeeps(c, j);
    assert c.tail.Some? && TicketInv(c, c.tail.value);
  }

  // --- Main results ------------------------------------------------------

  /** A completed ticket means every earlier admitted one completed, settled and out of its loop. */
  lemma TicketsCompleteInOrder(ops: seq<Op>, i: nat, j: nat)
    requires Allowed(EMPTY, ops) && i < j < |Run(EMPTY, ops).tickets|
    ensures var t := Run(EMPTY, ops).tickets;
            t[j].done || t[j].submitting ==> t[i].done && t[i].settled && !t[i].submitting
  {
    RunKeeps(EMPTY, ops);
    var c := Run(EMPTY, ops);
    assert TicketInv(c, i) && TicketInv(c, j);
  }

  /** At most one job is in its submit loop, whatever fails or is cancelled while waiting. */
  lemma OneSubmitterAtATime(ops: seq<Op>, i: nat, j: nat)
    requires Allowed(EMPTY, ops) && i < |Run(EMPTY, ops).tickets| && j < |Run(EMPTY, ops).tickets|
    requires Run(EMPTY, ops).tickets[i].submitting && Run(EMPTY, ops).tickets[j].submitting
    ensures i == j
  {
    if i < j { TicketsCompleteInOrder(ops, i, j); }
    if j < i { TicketsCompleteInOrder(ops, j, i); }
  }

  /** Submit loops are entered in admission order, each at most once. */
  lemma LoopsEnteredInAdmissionOrder(ops: seq<Op>, k: nat, l: nat)
    requires Allowed(EMPTY, ops) && k < l < |Run(EMPTY, ops).entries|
    ensures Run(EMPTY, ops).entries[k] < Run(EMPTY, ops).entries[l]
  {
    RunKeeps(EMPTY, ops);
  }

  /** The recovery gate's test: the registry shows no unfinished tail exactly when nothing is unfinished. */
  lemma IdleTailMeansIdle(ops: seq<Op>)
    requires Allowed(EMPTY, ops)
    ensures var c := Run(EMPTY, ops);
            && (c.tail.Some? ==> c.tail.value < |c.tickets|)
            && (c.tail.None? || c.tickets[c.tail.value].done <==>
                forall j | 0 <= j < |c.tickets| :: c.tickets[j].done)
  {
    RunKeeps(EMPTY, ops);
    var c := Run(EMPTY, ops);
    if c.tail.Some? { assert TicketInv(c, c.tail.value); }
  }

  // --- Every ticket completes --------------------------------------------

  function Unfinished(tickets: seq<Ticket>): nat {
    if tickets == [] then 0 else
      Unfinished(tickets[..|tickets| - 1]) + (if tickets[|tickets| - 1].done then 0 else 1)
  }

  lemma {:induction false} FinishingOne(tickets: seq<Ticket>, j: nat)
    requires j < |tickets| && !tickets[j].done
    ensures Unfinished(tickets[j := tickets[j].(done := true)]) == Unfinished(tickets) - 1
    decreases |tickets|
  {
    var after := tickets[j := tickets[j].(done := true)];
    var last := |tickets| - 1;
    if j < last {
      assert after[..last] == tickets[..last][j := tickets[..last][j].(done := true)];
      FinishingOne(tickets[..last], j);
    } else {
      assert after[..last] == tickets[..last];
    }
  }

  lemma {:induction false} NoneUnfinished(tickets: seq<Ticket>)
    ensures Unfinished(tickets) == 0 <==> forall j | 0 <= j < |tickets| :: tickets[j].done
  {
    if tickets != [] {
      var last := |tickets| - 1;
      NoneUnfinished(tickets[..last]);
      assert forall j | 0 <= j < last :: tickets[..last][j] == tickets[j];
    }
  }

  ghost predicate AllSettled(c: Chain) {
    forall j | 0 <= j < |c.tickets| :: c.tickets[j].settled
  }

  /** Once every job has settled, an unfinished ticket means some callback is ready to fire. */
  lemma {:induction false} SomeCallbackIsReady(c: Chain, j: nat)
    requires Inv(c) && AllSettled(c) && j < |c.tickets| && !c.tickets[j].done
    ensures exists i: nat :: i < |c.tickets| && Enabled(c, Fire(i))
    decreases j
  {
    assert TicketInv(c, j);
    if PredecessorDone(c, j) {
      assert Enabled(c, Fire(j));
    } else {
      SomeCallbackIsReady(c, j - 1);
    }
  }

  ghost predicate OnlyFires(ops: seq<Op>) {
    forall op | op in ops :: op.Fire?
  }

  /**
   If every job settles, every ticket completes: once all have settled the event loop can
   fire no more callbacks than there are unfinished tickets, it can always fire another
   one while a ticket is unfinished, and after that many all are done.
   */
  lemma {:induction false} EveryTicketCompletes(c: Chain, fires: seq<Op>)
    requires Inv(c) && AllSettled(c) && OnlyFires(fires) && Allowed(c, fires)
    ensures var end := Run(c, fires);
            && Unfinished(end.tickets) == Unfinished(c.tickets) - |fires|
            && (|fires| < Unfinished(c.tickets) ==> exists i: nat :: i < |end.tickets| && Enabled(end, Fire(i)))
            && (|fires| == Unfinished(c.tickets) <==> forall j | 0 <= j < |end.tickets| :: end.tickets[j].done)
    decreases |fires|
  {
    NoneUnfinished(c.tickets);
    if fires == [] {
      if j: nat :| j < |c.tickets| && !c.tickets[j].done {
        SomeCallbackIsReady(c, j);
      }
    } else {
      assert fires[0] in fires;
      StepKeeps(c, fires[0]);
      FinishingOne(c.tickets, fires[0].job);
      EveryTicketCompletes(Apply(c, fires[0]), fires[1..]);
    }
  }
}
