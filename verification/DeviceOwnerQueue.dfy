/** The device owner's methods as the code runs them when no other thread interferes: request objects in a bounded
    queue, served in order by the owner thread. DeviceOwner has the interleavings. */
module DeviceOwnerQueue {
  import opened Basics
  import opened DeviceOwner

  class QueuedRequest {
    const generation: nat
    var abandoned: bool
    var answer: Option<Reply>
    var signaled: bool

    constructor (generation: nat)
      ensures this.generation == generation && !abandoned && answer == None && !signaled
    {
      this.generation := generation;
      abandoned, answer, signaled := false, None, false;
    }
  }

  /** The requests that reach the executor: not abandoned, and of the current generation. */
  ghost function Runnable(queue: seq<QueuedRequest>, generation: nat): (r: seq<QueuedRequest>)
    reads queue
  {
    if queue == [] then []
    else
      var last := queue[|queue| - 1];
      Runnable(queue[..|queue| - 1], generation)
      + if !last.abandoned && last.generation == generation then [last] else []
  }

  lemma {:induction false} RunnableAre(queue: seq<QueuedRequest>, generation: nat)
    ensures forall q | q in queue :: q in Runnable(queue, generation) <==> !q.abandoned && q.generation == generation
    ensures forall q | q in Runnable(queue, generation) :: q in queue
    decreases |queue|
  {
    if queue != [] {
      RunnableAre(queue[..|queue| - 1], generation);
      assert queue == queue[..|queue| - 1] + [queue[|queue| - 1]];
    }
  }

  /** They reach it once each and in the order of the queue: of two parts of a queue, the first part's come first. */
  lemma {:induction false} RunnableInOrder(a: seq<QueuedRequest>, b: seq<QueuedRequest>, generation: nat)
    ensures Runnable(a + b, generation) == Runnable(a, generation) + Runnable(b, generation)
    decreases |b|
  {
    if b == [] {
      assert a + b == a;
    } else {
      var last := if !b[|b| - 1].abandoned && b[|b| - 1].generation == generation then [b[|b| - 1]] else [];
      RunnableInOrder(a, b[..|b| - 1], generation);
      assert (a + b)[..|a + b| - 1] == a + b[..|b| - 1];
      assert Runnable(a + b, generation) == Runnable(a + b[..|b| - 1], generation) + last;
    }
  }

  /** What the drain answers. */
  function AnswerTo(abandoned: bool, generation: nat, current: nat, outcome: Reply): Option<Reply> {
    if abandoned then None else if generation == current then Some(outcome) else Some(CancelledReply)
  }

  class Owner {
    const capacity: nat
    var generation: nat
    var queue: seq<QueuedRequest>
    ghost var executed: seq<QueuedRequest>

    ghost predicate Valid()
      reads this, queue
    {
      && |queue| <= capacity
      && (forall i, j | 0 <= i < j < |queue| :: queue[i] != queue[j])
      && (forall r | r in queue :: r.answer.None? && !r.signaled && r.generation <= generation)
    }

    constructor (capacity: nat)
      ensures Valid() && queue == [] && executed == [] && generation == 0 && this.capacity == capacity
    {
      this.capacity := capacity;
      generation, queue, executed := 0, [], [];
    }

    method BumpGeneration()
      requires Valid()
      modifies `generation
      ensures Valid() && generation == old(generation) + 1
    {
      generation := generation + 1;
    }

    /** submit_and_wait up to the wait: refused by a full queue, or last in it under the current generation. */
    method Submit() returns (r: QueuedRequest, accepted: bool)
      requires Valid()
      modifies `queue
      ensures Valid() && fresh(r) && r.generation == generation && !r.abandoned
      ensures accepted <==> |old(queue)| < capacity
      ensures queue == if accepted then old(queue) + [r] else old(queue)
    {
      r := new QueuedRequest(generation);
      accepted := |queue| < capacity;
      if accepted { queue := queue + [r]; }
    }

    /** submit_and_wait after the wait: a signaled caller reads its own answer, another abandons its request. */
    method FinishWait(r: QueuedRequest) returns (outcome: Outcome)
      requires r.signaled ==> r.answer.Some?
      modifies r`abandoned
      ensures outcome == if r.signaled then Got(r.answer.value) else AcquireTimeout
      ensures r.abandoned == (old(r.abandoned) || !r.signaled)
    {
      if !r.signaled {
        r.abandoned := true;
        return AcquireTimeout;
      }
      return Got(r.answer.value);
    }

    /** drain_pending; `outcomes[i]` is what the executor would return or raise for the i-th request. Each request is
        answered with its own outcome exactly if it was executed, with a cancellation exactly if it is of another
        generation, and not at all exactly if its caller had given up. */
    method DrainPending(outcomes: seq<Reply>) returns (drained: nat)
      requires Valid() && |outcomes| == |queue| && forall o | o in outcomes :: !o.CancelledReply?
      modifies this, queue
      ensures Valid() && queue == [] && drained == |old(queue)| && generation == old(generation)
      ensures executed == old(executed) + old(Runnable(queue, generation))
      ensures forall i | 0 <= i < |old(queue)| ::
        var r := old(queue)[i];
        && r.abandoned == old(r.abandoned) && r.signaled == !r.abandoned
        && (r.answer == Some(outcomes[i]) <==> r in executed[|old(executed)|..])
        && (r.answer == Some(CancelledReply) <==> !r.abandoned && r.generation != generation)
        && (r.answer == None <==> r.abandoned)
    {
      ghost var all, runnable := queue, Runnable(queue, generation);
      RunnableAre(all, generation);
      assert forall i | 0 <= i < |all| :: all[i] in runnable <==> !all[i].abandoned && all[i].generation == generation;
      drained := ServeAll(outcomes);
      assert executed[|old(executed)|..] == runnable;
      forall i | 0 <= i < |all|
        ensures outcomes[i] != CancelledReply
        ensures all[i] in runnable <==> !all[i].abandoned && all[i].generation == generation
      {
        assert outcomes[i] in outcomes && all[i].abandoned == old(all[i].abandoned);
      }
    }

    /** The loop, until the queue is empty. */
    method ServeAll(outcomes: seq<Reply>) returns (drained: nat)
      requires Valid() && |outcomes| == |queue|
      modifies this, queue
      ensures Valid() && queue == [] && drained == |old(queue)| && generation == old(generation)
      ensures executed == old(executed) + old(Runnable(queue, generation))
      ensures forall i | 0 <= i < |old(queue)| ::
        var r := old(queue)[i];
        && r.abandoned == old(r.abandoned) && r.signaled == !r.abandoned
        && r.answer == AnswerTo(r.abandoned, r.generation, generation, outcomes[i])
    {
      drained := 0;
      ghost var all := queue;
      assert all[..0] == [];
      while queue != []
        invariant drained <= |all| && queue == all[drained..] && generation == old(generation)
        invariant executed == old(executed) + old(Runnable(all[..drained], generation))
        invariant forall i | 0 <= i < |all| :: all[i].abandoned == old(all[i].abandoned)
        invariant forall i | drained <= i < |all| :: !all[i].signaled && all[i].answer == None
        invariant forall i | 0 <= i < drained :: all[i].signaled == !all[i].abandoned
        invariant forall i | 0 <= i < drained ::
          all[i].answer == AnswerTo(all[i].abandoned, all[i].generation, generation, outcomes[i])
        decreases |queue|
      {
        var req := queue[0];
        queue := queue[1..];
        assert all[..drained + 1][..drained] == all[..drained];
        drained := drained + 1;
        Serve(req, outcomes[drained - 1]);
      }
      assert all[..drained] == all;
    }

    /** What becomes of one request taken out of the queue. */
    method Serve(req: QueuedRequest, outcome: Reply)
      requires req.answer.None? && !req.signaled
      modifies `executed, req`answer, req`signaled
      ensures req.signaled == !req.abandoned
      ensures req.answer == AnswerTo(req.abandoned, req.generation, generation, outcome)
      ensures executed ==
        old(executed) + if !req.abandoned && req.generation == generation then [req] else []
    {
      if req.abandoned { return; }
      if req.generation != generation {
        req.answer := Some(CancelledReply);
      } else {
        req.answer := Some(outcome);
        executed := executed + [req];
      }
      req.signaled := true;
    }

    /** cancel_all_pending. */
    method CancelAllPending() returns (cancelled: nat)
      requires Valid()
      modifies `queue, queue`answer, queue`signaled
      ensures Valid() && queue == [] && cancelled == |old(queue)| && executed == old(executed)
      ensures forall r | r in old(queue) :: r.signaled && r.answer == Some(CancelledReply)
    {
      cancelled := 0;
      ghost var all := queue;
      while queue != []
        invariant cancelled <= |all| && queue == all[cancelled..]
        invariant forall i | 0 <= i < cancelled :: all[i].signaled && all[i].answer == Some(CancelledReply)
        decreases |queue|
      {
        var req := queue[0];
        queue := queue[1..];
        cancelled := cancelled + 1;
        req.answer, req.signaled := Some(CancelledReply), true;
      }
    }
  }
}
