/** The device owner's request queue under every interleaving of callers and the owner thread. Each action is one step
    that the code performs without another thread in between: one queue operation, one field write, one check. */
module DeviceOwner {
  import opened Basics

  type RequestId = nat
  type Payload = int

  datatype Reply = Value(result: Payload) | Raised(error: Payload) | CancelledReply

  /** What a caller got back from submit_and_wait. */
  datatype Outcome = Got(reply: Reply) | QueueFull | AcquireTimeout

  datatype Caller =
    | Prepared              // request built under the generation it read, not yet offered to the queue
    | Waiting
    | GaveUp                // its wait ran out; not yet marked abandoned
    | Returned(outcome: Outcome)

  /** `position` and `execution` record where the request stands in the histories below. */
  datatype Request = Request(generation: nat, abandoned: bool, reply: Option<Reply>, signaled: bool, caller: Caller,
                             position: Option<nat>, execution: Option<nat>)

  /** Where the owner thread stands. */
  datatype Owner =
    | Idle
    | Draining
    | Popped(id: RequestId)       // out of the queue, nothing checked
    | NotAbandoned(id: RequestId)
    | Cleared(id: RequestId)      // generation matched; the executor runs next
    | Replied(id: RequestId)      // reply written, event not yet set
    | Cancelling
    | Resetting                   // queue emptied, generation not yet bumped
    | Bumped                      // generation bumped, connection not yet dropped

  /** One execution on the device: whose request, on the connection of which generation, with what outcome. */
  datatype Execution = Execution(id: RequestId, epoch: nat, reply: Reply)

  /** The queue is what was enqueued and not yet popped. */
  datatype State = State(
    capacity: nat, generation: nat, connection: Option<nat>,
    requests: map<RequestId, Request>,
    enqueued: seq<RequestId>,
    popped: nat,
    owner: Owner,
    executed: seq<Execution>)

  function Init(capacity: nat): State {
    State(capacity, 0, None, map[], [], 0, Idle, [])
  }

  /** The owner has taken a request out and not yet finished with it. */
  predicate Holding(s: State) {
    s.owner.Popped? || s.owner.NotAbandoned? || s.owner.Cleared? || s.owner.Replied?
  }

  // ---- Steps ----

  datatype Action =
    | Prepare(id: RequestId)
    | Offer(id: RequestId)
    | WaitRunsOut(id: RequestId)
    | Abandon(id: RequestId)
    | Wake(id: RequestId)
    | StartDrain
    | Pop
    | CheckAbandoned
    | CheckGeneration
    | Execute(reply: Reply)
    | Signal
    | StartCleanup
    | CancelNext
    | BumpGeneration
    | DropConnection
    | Connect

  predicate QueueOk(s: State) {
    s.popped <= |s.enqueued| && (s.popped < |s.enqueued| ==> s.enqueued[s.popped] in s.requests)
  }

  predicate ByCaller(a: Action) {
    a.Prepare? || a.Offer? || a.WaitRunsOut? || a.Abandon? || a.Wake?
  }

  predicate Serves(a: Action) {
    a.StartDrain? || a.Pop? || a.CheckAbandoned? || a.CheckGeneration? || a.Execute? || a.Signal?
  }

  predicate Enabled(s: State, a: Action) {
    if ByCaller(a) then CallerMay(s, a) else if Serves(a) then OwnerMayServe(s, a) else OwnerMayReset(s, a)
  }

  predicate CallerMay(s: State, a: Action)
    requires ByCaller(a)
  {
    match a
    case Prepare(id) => id !in s.requests
    case Offer(id) => id in s.requests && s.requests[id].caller.Prepared? && QueueOk(s)
    case WaitRunsOut(id) => id in s.requests && s.requests[id].caller.Waiting? && !s.requests[id].signaled
    case Abandon(id) => id in s.requests && s.requests[id].caller.GaveUp?
    case Wake(id) => id in s.requests && s.requests[id].caller.Waiting? && s.requests[id].signaled
                     && s.requests[id].reply.Some?
  }

  predicate OwnerMayServe(s: State, a: Action)
    requires Serves(a)
  {
    match a
    case StartDrain => s.owner.Idle? && s.connection.Some?
    case Pop => s.owner.Draining? && QueueOk(s)
    case CheckAbandoned => s.owner.Popped? && s.owner.id in s.requests
    case CheckGeneration => s.owner.NotAbandoned? && s.owner.id in s.requests
    case Execute(reply) => s.owner.Cleared? && s.owner.id in s.requests && s.connection.Some? && !reply.CancelledReply?
    case Signal => s.owner.Replied? && s.owner.id in s.requests
  }

  predicate OwnerMayReset(s: State, a: Action)
    requires !ByCaller(a) && !Serves(a)
  {
    match a
    case StartCleanup => s.owner.Idle?
    case CancelNext => s.owner.Cancelling? && QueueOk(s)
    case BumpGeneration => s.owner.Resetting?
    case DropConnection => s.owner.Bumped?
    case Connect => s.owner.Idle? && s.connection.None?
  }

  function Put(s: State, id: RequestId, r: Request): State {
    s.(requests := s.requests[id := r])
  }

  function Perform(s: State, a: Action): State
    requires Enabled(s, a)
  {
    if ByCaller(a) then CallerActs(s, a) else if Serves(a) then OwnerServes(s, a) else OwnerResets(s, a)
  }

  function CallerActs(s: State, a: Action): State
    requires ByCaller(a) && CallerMay(s, a)
  {
    match a
    case Prepare(id) => Put(s, id, Request(s.generation, false, None, false, Prepared, None, None))
    case Offer(id) =>
      if |s.enqueued| - s.popped < s.capacity then
        Put(s, id, s.requests[id].(caller := Waiting, position := Some(|s.enqueued|))).(enqueued := s.enqueued + [id])
      else Put(s, id, s.requests[id].(caller := Returned(QueueFull)))
    case WaitRunsOut(id) => Put(s, id, s.requests[id].(caller := GaveUp))
    case Abandon(id) => Put(s, id, s.requests[id].(abandoned := true, caller := Returned(AcquireTimeout)))
    case Wake(id) => Put(s, id, s.requests[id].(caller := Returned(Got(s.requests[id].reply.value))))
  }

  /** drain_pending: every queued request in order, each checked before it may touch the device. */
  function OwnerServes(s: State, a: Action): State
    requires Serves(a) && OwnerMayServe(s, a)
  {
    match a
    case StartDrain => s.(owner := Draining)
    case Pop =>
      if s.popped == |s.enqueued| then s.(owner := Idle)
      else s.(owner := Popped(s.enqueued[s.popped]), popped := s.popped + 1)
    case CheckAbandoned =>
      s.(owner := if s.requests[s.owner.id].abandoned then Draining else NotAbandoned(s.owner.id))
    case CheckGeneration =>
      var id := s.owner.id;
      if s.requests[id].generation != s.generation then
        Put(s, id, s.requests[id].(reply := Some(CancelledReply))).(owner := Replied(id))
      else s.(owner := Cleared(id))
    case Execute(reply) =>
      var id := s.owner.id;
      Put(s, id, s.requests[id].(reply := Some(reply), execution := Some(|s.executed|))).(
        owner := Replied(id), executed := s.executed + [Execution(id, s.connection.value, reply)])
    case Signal => Put(s, s.owner.id, s.requests[s.owner.id].(signaled := true)).(owner := Draining)
  }

  /** cleanup_connection: cancel what is queued, bump the generation, drop the connection; and connecting again. */
  function OwnerResets(s: State, a: Action): State
    requires !ByCaller(a) && !Serves(a) && OwnerMayReset(s, a)
  {
    match a
    case StartCleanup => s.(owner := Cancelling)
    case CancelNext =>
      if s.popped == |s.enqueued| then s.(owner := Resetting)
      else
        var id := s.enqueued[s.popped];
        Put(s, id, s.requests[id].(reply := Some(CancelledReply), signaled := true)).(popped := s.popped + 1)
    case BumpGeneration => s.(generation := s.generation + 1, owner := Bumped)
    case DropConnection => s.(connection := None, owner := Idle)
    case Connect => s.(connection := Some(s.generation))
  }

  /** Actions that are not possible when their turn comes do nothing. */
  function Step(s: State, a: Action): State {
    if Enabled(s, a) then Perform(s, a) else s
  }

  /** The states a schedule goes through, first to last. */
  function Run(s: State, actions: seq<Action>): (all: seq<State>)
    ensures |all| == |actions| + 1 && all[0] == s
    decreases |actions|
  {
    if actions == [] then [s] else [s] + Run(Step(s, actions[0]), actions[1..])
  }

  // ---- The invariant ----

  predicate HistoryOk(s: State) {
    && s.popped <= |s.enqueued| && |s.enqueued| - s.popped <= s.capacity
    && (forall i | 0 <= i < |s.enqueued| ::
         s.enqueued[i] in s.requests && s.requests[s.enqueued[i]].position == Some(i))
    && (Holding(s) ==> s.popped > 0 && s.enqueued[s.popped - 1] == s.owner.id)
  }

  /** While the owner serves requests, or rests on a connection, it is the connection of this generation. */
  predicate ConnectionOk(s: State) {
    && (s.owner.Draining? || Holding(s) ==> s.connection.Some?)
    && (!s.owner.Bumped? && s.connection.Some? ==> s.connection.value == s.generation)
  }

  /** Waiting in the queue, or in the owner's hands with nothing decided. */
  predicate Undecided(s: State, id: RequestId, r: Request) {
    || (r.position.Some? && r.position.value >= s.popped)
    || s.owner == Popped(id) || s.owner == NotAbandoned(id) || s.owner == Cleared(id)
  }

  predicate RequestOk(s: State, id: RequestId, r: Request) {
    && r.generation <= s.generation
    && (r.position.Some? ==> r.position.value < |s.enqueued| && s.enqueued[r.position.value] == id)
    && (r.caller.Prepared? || r.caller == Returned(QueueFull) ==> r.position.None?)
    && (r.position.None? || Undecided(s, id, r) ==> r.reply.None? && !r.signaled)
    && (s.owner == Cleared(id) ==> r.generation == s.generation)
    && (s.owner == Replied(id) || r.signaled ==> r.reply.Some?)
    && (r.execution.Some? <==> r.reply.Some? && !r.reply.value.CancelledReply?)
    && (r.execution.Some? ==>
         && r.execution.value < |s.executed|
         && s.executed[r.execution.value] == Execution(id, r.generation, r.reply.value))
    && (r.caller.Returned? && r.caller.outcome.Got? ==> r.reply == Some(r.caller.outcome.reply))
  }

  predicate RequestsOk(s: State) {
    forall id | id in s.requests :: RequestOk(s, id, s.requests[id])
  }

  /** Where the k-th execution's request stood in the queue. */
  predicate ExecutionOk(s: State, k: nat)
    requires k < |s.executed|
  {
    var e := s.executed[k];
    && e.id in s.requests && s.requests[e.id].execution == Some(k)
    && s.requests[e.id].position.Some? && s.requests[e.id].position.value < s.popped
  }

  predicate Ordered(s: State, k: nat, l: nat)
    requires k < |s.executed| && l < |s.executed|
    requires ExecutionOk(s, k) && ExecutionOk(s, l)
  {
    s.requests[s.executed[k].id].position.value < s.requests[s.executed[l].id].position.value
  }

  predicate ExecutionsOk(s: State) {
    && (forall k: nat | k < |s.executed| :: ExecutionOk(s, k))
    && (forall k: nat, l: nat | k < l < |s.executed| :: Ordered(s, k, l))
  }

  predicate Inv(s: State) {
    HistoryOk(s) && ConnectionOk(s) && RequestsOk(s) && ExecutionsOk(s)
  }

  lemma InitInv(capacity: nat)
    ensures Inv(Init(capacity))
  {
  }

  lemma StepKeepsInv(s: State, a: Action)
    requires Inv(s)
    ensures Inv(Step(s, a))
  {
    if Enabled(s, a) {
      KeepsHistory(s, a);
      KeepsRequests(s, a);
      KeepsExecutions(s, a);
    }
  }

  lemma KeepsHistory(s: State, a: Action)
    requires Inv(s) && Enabled(s, a)
    ensures HistoryOk(Perform(s, a)) && ConnectionOk(Perform(s, a))
  {
    if ByCaller(a) { CallerKeepsHistory(s, a); }
    else if Serves(a) { ServingKeepsHistory(s, a); }
    else { ResettingKeepsHistory(s, a); }
  }

  lemma CallerKeepsHistory(s: State, a: Action)
    requires HistoryOk(s) && ConnectionOk(s) && RequestsOk(s) && ByCaller(a) && CallerMay(s, a)
    ensures HistoryOk(CallerActs(s, a)) && ConnectionOk(CallerActs(s, a))
  {
    if a.Offer? {
      assert RequestOk(s, a.id, s.requests[a.id]);
      OfferKeepsHistory(s, a.id);
    } else {
      SamePlacesKeepHistory(s, CallerActs(s, a));
    }
  }

  lemma OfferKeepsHistory(s: State, id: RequestId)
    requires HistoryOk(s) && CallerMay(s, Offer(id)) && s.requests[id].position.None?
    ensures HistoryOk(CallerActs(s, Offer(id)))
  {
    var t := CallerActs(s, Offer(id));
    forall i | 0 <= i < |t.enqueued|
      ensures t.enqueued[i] in t.requests && t.requests[t.enqueued[i]].position == Some(i)
    {
      if i < |s.enqueued| { assert t.enqueued[i] == s.enqueued[i]; }
    }
  }

  /** What leaves the queue, the owner and every request's place alone. */
  lemma SamePlacesKeepHistory(s: State, t: State)
    requires HistoryOk(s) && t.enqueued == s.enqueued && t.popped == s.popped && t.capacity == s.capacity
    requires t.owner == s.owner
    requires forall id | id in s.requests :: id in t.requests && t.requests[id].position == s.requests[id].position
    ensures HistoryOk(t)
  {
  }

  lemma ServingKeepsHistory(s: State, a: Action)
    requires HistoryOk(s) && ConnectionOk(s) && Serves(a) && OwnerMayServe(s, a)
    ensures HistoryOk(OwnerServes(s, a)) && ConnectionOk(OwnerServes(s, a))
  {
  }

  lemma ResettingKeepsHistory(s: State, a: Action)
    requires HistoryOk(s) && ConnectionOk(s) && !ByCaller(a) && !Serves(a) && OwnerMayReset(s, a)
    ensures HistoryOk(OwnerResets(s, a)) && ConnectionOk(OwnerResets(s, a))
  {
  }

  lemma KeepsRequests(s: State, a: Action)
    requires Inv(s) && Enabled(s, a)
    ensures RequestsOk(Perform(s, a))
  {
    var t := Perform(s, a);
    forall id | id in t.requests
      ensures RequestOk(t, id, t.requests[id])
    {
      if id in s.requests { KeepsRequest(s, a, id); }
    }
  }

  lemma KeepsRequest(s: State, a: Action, id: RequestId)
    requires Inv(s) && Enabled(s, a) && id in s.requests
    ensures RequestOk(Perform(s, a), id, Perform(s, a).requests[id])
  {
    assert RequestOk(s, id, s.requests[id]);
    if ByCaller(a) { CallerKeepsRequest(s, a, id); }
    else if Serves(a) { ServingKeepsRequest(s, a, id); }
    else { ResettingKeepsRequest(s, a, id); }
  }

  lemma CallerKeepsRequest(s: State, a: Action, id: RequestId)
    requires HistoryOk(s) && Enabled(s, a) && ByCaller(a) && id in s.requests && RequestOk(s, id, s.requests[id])
    ensures RequestOk(Perform(s, a), id, Perform(s, a).requests[id])
  {
  }

  lemma ServingKeepsRequest(s: State, a: Action, id: RequestId)
    requires HistoryOk(s) && ConnectionOk(s) && Serves(a) && OwnerMayServe(s, a)
    requires id in s.requests && RequestOk(s, id, s.requests[id])
    ensures RequestOk(OwnerServes(s, a), id, OwnerServes(s, a).requests[id])
  {
    if a.StartDrain? || a.Pop? || a.CheckAbandoned? { TakingKeepsRequest(s, a, id); }
    else { AnsweringKeepsRequest(s, a, id); }
  }

  lemma TakingKeepsRequest(s: State, a: Action, id: RequestId)
    requires HistoryOk(s) && (a.StartDrain? || a.Pop? || a.CheckAbandoned?) && OwnerMayServe(s, a)
    requires id in s.requests && RequestOk(s, id, s.requests[id])
    ensures RequestOk(OwnerServes(s, a), id, OwnerServes(s, a).requests[id])
  {
  }

  lemma AnsweringKeepsRequest(s: State, a: Action, id: RequestId)
    requires HistoryOk(s) && ConnectionOk(s) && (a.CheckGeneration? || a.Execute? || a.Signal?) && OwnerMayServe(s, a)
    requires id in s.requests && RequestOk(s, id, s.requests[id])
    ensures RequestOk(OwnerServes(s, a), id, OwnerServes(s, a).requests[id])
  {
  }

  lemma ResettingKeepsRequest(s: State, a: Action, id: RequestId)
    requires HistoryOk(s) && !ByCaller(a) && !Serves(a) && OwnerMayReset(s, a)
    requires id in s.requests && RequestOk(s, id, s.requests[id])
    ensures RequestOk(OwnerResets(s, a), id, OwnerResets(s, a).requests[id])
  {
  }

  lemma KeepsExecutions(s: State, a: Action)
    requires Inv(s) && Enabled(s, a)
    ensures ExecutionsOk(Perform(s, a))
  {
    var t := Perform(s, a);
    forall k: nat | k < |t.executed|
      ensures ExecutionOk(t, k)
    {
      if k < |s.executed| { KeepsExecution(s, a, k); } else { AddsExecution(s, a); }
    }
    forall k: nat, l: nat | k < l < |t.executed|
      ensures Ordered(t, k, l)
    {
      assert ExecutionOk(t, k) && ExecutionOk(t, l);
      KeepsOrder(s, a, k, l);
    }
  }

  /** A new execution is of the request taken out last. */
  lemma AddsExecution(s: State, a: Action)
    requires HistoryOk(s) && RequestsOk(s) && Enabled(s, a) && |Perform(s, a).executed| > |s.executed|
    ensures var t := Perform(s, a);
      && |t.executed| == |s.executed| + 1 && ExecutionOk(t, |s.executed|)
      && t.requests[t.executed[|s.executed|].id].position == Some(s.popped - 1)
  {
    assert a.Execute? && RequestOk(s, s.owner.id, s.requests[s.owner.id]);
  }

  lemma KeepsOrder(s: State, a: Action, k: nat, l: nat)
    requires Inv(s) && Enabled(s, a) && k < l < |Perform(s, a).executed|
    requires ExecutionOk(Perform(s, a), k) && ExecutionOk(Perform(s, a), l)
    ensures Ordered(Perform(s, a), k, l)
  {
    var t := Perform(s, a);
    if l < |s.executed| {
      assert Ordered(s, k, l);
      KeepsExecution(s, a, k);
      KeepsExecution(s, a, l);
    } else {
      AddsExecution(s, a);
      KeepsExecution(s, a, k);
      NotLastPopped(s, a, k);
    }
  }

  /** When a request is about to be executed, every request executed so far stood before it in the queue. */
  lemma NotLastPopped(s: State, a: Action, k: nat)
    requires Inv(s) && Enabled(s, a) && a.Execute? && k < |s.executed| && ExecutionOk(s, k)
    ensures s.requests[s.executed[k].id].position.value < s.popped - 1
  {
  }

  /** The k-th execution and the place of its request are the same in `t` as in `s`. */
  predicate Stays(s: State, t: State, k: nat)
    requires k < |s.executed| && ExecutionOk(s, k)
  {
    && k < |t.executed| && t.executed[k] == s.executed[k] && ExecutionOk(t, k)
    && t.requests[s.executed[k].id].position == s.requests[s.executed[k].id].position
  }

  lemma KeepsExecution(s: State, a: Action, k: nat)
    requires Inv(s) && Enabled(s, a) && k < |s.executed|
    ensures ExecutionOk(s, k) && Stays(s, Perform(s, a), k)
  {
    assert ExecutionOk(s, k);
    assert RequestOk(s, s.executed[k].id, s.requests[s.executed[k].id]);
    if ByCaller(a) { CallerKeepsExecution(s, a, k); }
    else if Serves(a) {
      if a.Execute? { assert RequestOk(s, s.owner.id, s.requests[s.owner.id]); }
      ServingKeepsExecution(s, a, k);
    } else { ResettingKeepsExecution(s, a, k); }
  }

  lemma CallerKeepsExecution(s: State, a: Action, k: nat)
    requires ByCaller(a) && CallerMay(s, a) && k < |s.executed| && ExecutionOk(s, k)
    requires HistoryOk(s) && RequestOk(s, s.executed[k].id, s.requests[s.executed[k].id])
    ensures Stays(s, CallerActs(s, a), k)
  {
  }

  lemma ServingKeepsExecution(s: State, a: Action, k: nat)
    requires Serves(a) && OwnerMayServe(s, a) && k < |s.executed| && ExecutionOk(s, k)
    requires HistoryOk(s) && RequestOk(s, s.executed[k].id, s.requests[s.executed[k].id])
    requires a.Execute? ==> RequestOk(s, s.owner.id, s.requests[s.owner.id])
    ensures Stays(s, OwnerServes(s, a), k)
  {
  }

  lemma ResettingKeepsExecution(s: State, a: Action, k: nat)
    requires !ByCaller(a) && !Serves(a) && OwnerMayReset(s, a) && k < |s.executed| && ExecutionOk(s, k)
    ensures Stays(s, OwnerResets(s, a), k)
  {
  }

  lemma {:induction false} RunKeepsInv(s: State, actions: seq<Action>)
    requires Inv(s)
    ensures forall i | 0 <= i <= |actions| :: Inv(Run(s, actions)[i])
    decreases |actions|
  {
    if actions != [] {
      StepKeepsInv(s, actions[0]);
      RunKeepsInv(Step(s, actions[0]), actions[1..]);
    }
  }

  /** The states of a run from its i-th on are a run of the remaining actions. */
  lemma {:induction false} RunSuffix(s: State, actions: seq<Action>, i: nat)
    requires i <= |actions|
    ensures Run(s, actions)[i..] == Run(Run(s, actions)[i], actions[i..])
    decreases i
  {
    if i > 0 {
      RunSuffix(Step(s, actions[0]), actions[1..], i - 1);
      assert actions[1..][i - 1..] == actions[i..];
      assert Run(s, actions)[i..] == Run(Step(s, actions[0]), actions[1..])[i - 1..];
    }
  }

  // ---- What callers and the device can rely on ----

  function Final(s: State, actions: seq<Action>): State {
    Run(s, actions)[|actions|]
  }

  /** In every schedule every execution runs on the connection opened under the very generation its request was built
      under. */
  lemma ExecutedUnderOwnGeneration(capacity: nat, actions: seq<Action>, k: nat)
    requires k < |Final(Init(capacity), actions).executed|
    ensures var s := Final(Init(capacity), actions);
      s.executed[k].id in s.requests && s.requests[s.executed[k].id].generation == s.executed[k].epoch
  {
    InitInv(capacity);
    RunKeepsInv(Init(capacity), actions);
    var s := Final(Init(capacity), actions);
    assert ExecutionOk(s, k) && RequestOk(s, s.executed[k].id, s.requests[s.executed[k].id]);
  }

  /** In every schedule two executions are of different requests, and follow the order of the queue. */
  lemma ExecutionsAreSafe(capacity: nat, actions: seq<Action>, k: nat, l: nat)
    requires k < l < |Final(Init(capacity), actions).executed|
    ensures var s := Final(Init(capacity), actions);
      && s.executed[k].id != s.executed[l].id
      && exists i, j ::
           0 <= i < j < |s.enqueued| && s.enqueued[i] == s.executed[k].id && s.enqueued[j] == s.executed[l].id
  {
    InitInv(capacity);
    RunKeepsInv(Init(capacity), actions);
    var s := Final(Init(capacity), actions);
    assert ExecutionOk(s, k) && ExecutionOk(s, l) && Ordered(s, k, l);
    assert RequestOk(s, s.executed[k].id, s.requests[s.executed[k].id]);
    assert RequestOk(s, s.executed[l].id, s.requests[s.executed[l].id]);
    var i, j := s.requests[s.executed[k].id].position.value, s.requests[s.executed[l].id].position.value;
    assert s.enqueued[i] == s.executed[k].id && s.enqueued[j] == s.executed[l].id;
  }

  predicate WasExecuted(s: State, id: RequestId) {
    exists k :: 0 <= k < |s.executed| && s.executed[k].id == id
  }

  /** A caller told that its command was cancelled, or that the queue was full, knows it was not executed; a caller with
      any other reply got the outcome of its own execution. */
  lemma RepliesAreTruthful(capacity: nat, actions: seq<Action>, id: RequestId)
    requires id in Final(Init(capacity), actions).requests
    ensures var s := Final(Init(capacity), actions);
      match s.requests[id].caller
      case Returned(QueueFull) => !WasExecuted(s, id)
      case Returned(Got(CancelledReply)) => !WasExecuted(s, id)
      case Returned(Got(reply)) =>
        exists k :: 0 <= k < |s.executed| && s.executed[k].id == id && s.executed[k].reply == reply
      case _ => true
  {
    InitInv(capacity);
    RunKeepsInv(Init(capacity), actions);
    var s := Final(Init(capacity), actions);
    assert RequestOk(s, id, s.requests[id]);
    forall k: nat | k < |s.executed| && s.executed[k].id == id
      ensures s.requests[id].execution == Some(k)
    {
      assert ExecutionOk(s, k);
    }
  }

  /** Decided against: the request can no longer reach the executor. */
  predicate Barred(s: State, id: RequestId) {
    && id in s.requests && s.requests[id].execution.None?
    && s.owner != Cleared(id) && (s.owner == NotAbandoned(id) ==> s.requests[id].generation != s.generation)
    && (s.requests[id].abandoned || s.requests[id].reply.Some? || s.requests[id].caller == Returned(QueueFull))
  }

  lemma StepKeepsBarred(s: State, a: Action, id: RequestId)
    requires Inv(s) && Barred(s, id)
    ensures Barred(Step(s, a), id)
  {
    assert RequestOk(s, id, s.requests[id]);
    if Enabled(s, a) {
      if ByCaller(a) { CallerKeepsBarred(s, a, id); }
      else if Serves(a) { ServingKeepsBarred(s, a, id); }
      else { ResettingKeepsBarred(s, a, id); }
    }
  }

  lemma CallerKeepsBarred(s: State, a: Action, id: RequestId)
    requires ByCaller(a) && CallerMay(s, a) && Barred(s, id) && RequestOk(s, id, s.requests[id])
    ensures Barred(CallerActs(s, a), id)
  {
  }

  lemma ServingKeepsBarred(s: State, a: Action, id: RequestId)
    requires HistoryOk(s) && Serves(a) && OwnerMayServe(s, a) && Barred(s, id) && RequestOk(s, id, s.requests[id])
    ensures Barred(OwnerServes(s, a), id)
  {
  }

  lemma ResettingKeepsBarred(s: State, a: Action, id: RequestId)
    requires !ByCaller(a) && !Serves(a) && OwnerMayReset(s, a) && Barred(s, id)
    ensures Barred(OwnerResets(s, a), id)
  {
  }

  lemma {:induction false} BarredStaysBarred(s: State, actions: seq<Action>, id: RequestId)
    requires Inv(s) && Barred(s, id)
    ensures Barred(Final(s, actions), id) && !WasExecuted(Final(s, actions), id)
    decreases |actions|
  {
    if actions != [] {
      StepKeepsInv(s, actions[0]);
      StepKeepsBarred(s, actions[0], id);
      BarredStaysBarred(Step(s, actions[0]), actions[1..], id);
    } else {
      forall k: nat | k < |s.executed|
        ensures s.executed[k].id != id
      {
        assert ExecutionOk(s, k);
      }
    }
  }

  /** A request abandoned while it waits in the queue is never executed, then or later; nor is one that has been
      answered with a cancellation or refused by the full queue. */
  lemma AbandonedInQueueNeverRuns(capacity: nat, actions: seq<Action>, i: nat, id: RequestId)
    requires i <= |actions| && id in Run(Init(capacity), actions)[i].requests
    requires var s := Run(Init(capacity), actions)[i]; var r := s.requests[id];
      || (r.abandoned && r.position.Some? && r.position.value >= s.popped)
      || r.caller == Returned(QueueFull) || r.reply == Some(CancelledReply)
    ensures !WasExecuted(Final(Init(capacity), actions), id)
  {
    InitInv(capacity);
    RunKeepsInv(Init(capacity), actions);
    BecomesBarred(Run(Init(capacity), actions)[i], id);
    FinalSuffix(Init(capacity), actions, i);
    BarredStaysBarred(Run(Init(capacity), actions)[i], actions[i..], id);
  }

  lemma BecomesBarred(s: State, id: RequestId)
    requires Inv(s) && id in s.requests
    requires var r := s.requests[id];
      || (r.abandoned && r.position.Some? && r.position.value >= s.popped)
      || r.caller == Returned(QueueFull) || r.reply == Some(CancelledReply)
    ensures Barred(s, id)
  {
  }

  lemma FinalSuffix(s: State, actions: seq<Action>, i: nat)
    requires i <= |actions|
    ensures Final(s, actions) == Final(Run(s, actions)[i], actions[i..])
  {
    RunSuffix(s, actions, i);
    assert Run(s, actions)[|actions|] == Run(s, actions)[i..][|actions| - i];
  }

  lemma FinalCons(s: State, a: Action, rest: seq<Action>)
    ensures Final(s, [a] + rest) == Final(Step(s, a), rest)
  {
  }

  /** A request carries the generation current when it is built. */
  lemma PrepareIs(s: State, id: RequestId)
    requires CallerMay(s, Prepare(id))
    ensures var t := Step(s, Prepare(id));
      t == s.(requests := s.requests[id := Request(s.generation, false, None, false, Prepared, None, None)])
  {
  }

  /** An offer is refused exactly by a full queue; otherwise the request waits, last in the queue. */
  lemma OfferIs(s: State, id: RequestId)
    requires CallerMay(s, Offer(id))
    ensures var t := Step(s, Offer(id));
      && (t.requests[id].caller == Returned(QueueFull) <==> |s.enqueued| - s.popped >= s.capacity)
      && (t.requests[id].caller == Waiting <==> |s.enqueued| - s.popped < s.capacity)
      && t.enqueued == (if |s.enqueued| - s.popped < s.capacity then s.enqueued + [id] else s.enqueued)
      && t.requests[id].generation == s.requests[id].generation && t.requests[id].reply == s.requests[id].reply
      && forall other | other != id :: other in t.requests <==> other in s.requests
  {
  }

  /** One turn of the drain with nobody in between; steps that the checks rule out do nothing. */
  function Turn(outcome: Reply): seq<Action> {
    [Pop] + ([CheckAbandoned] + ([CheckGeneration] + ([Execute(outcome)] + ([Signal] + []))))
  }

  /** What that turn does to the request at the head of the queue: one abandoned is dropped without an answer, one of
      another generation is answered with a cancellation and not executed, and any other is executed once, on the
      connection there is, and answered with the outcome. */
  lemma TurnServesHead(s: State, outcome: Reply)
    requires s.owner.Draining? && s.popped < |s.enqueued| && s.enqueued[s.popped] in s.requests
    requires s.connection.Some? && !outcome.CancelledReply?
    ensures var t, id := Final(s, Turn(outcome)), s.enqueued[s.popped];
      var r := s.requests[id];
      && t.owner == Draining && t.popped == s.popped + 1 && t.enqueued == s.enqueued && t.generation == s.generation
      && (r.abandoned ==> t.requests == s.requests && t.executed == s.executed)
      && (!r.abandoned && r.generation != s.generation ==>
           t.executed == s.executed
           && t.requests == s.requests[id := r.(reply := Some(CancelledReply), signaled := true)])
      && (!r.abandoned && r.generation == s.generation ==>
           t.executed == s.executed + [Execution(id, s.connection.value, outcome)]
           && t.requests == s.requests[id := r.(reply := Some(outcome), signaled := true,
                                                execution := Some(|s.executed|))])
  {
    var s1 := Step(s, Pop);
    var s2 := Step(s1, CheckAbandoned);
    var s3 := Step(s2, CheckGeneration);
    var s4 := Step(s3, Execute(outcome));
    FinalCons(s, Pop, [CheckAbandoned] + ([CheckGeneration] + ([Execute(outcome)] + ([Signal] + []))));
    FinalCons(s1, CheckAbandoned, [CheckGeneration] + ([Execute(outcome)] + ([Signal] + [])));
    FinalCons(s2, CheckGeneration, [Execute(outcome)] + ([Signal] + []));
    FinalCons(s3, Execute(outcome), [Signal] + []);
    FinalCons(s4, Signal, []);
    assert Final(Step(s4, Signal), []) == Step(s4, Signal);
  }

  /** The owner has passed the last check that could stop the request, or passes it next. */
  predicate PastChecks(s: State, id: RequestId)
    requires id in s.requests
  {
    s.owner == Cleared(id) || (s.owner == NotAbandoned(id) && s.requests[id].generation == s.generation)
  }

  lemma PastChecksMayRun(s: State, id: RequestId) returns (actions: seq<Action>)
    requires Inv(s) && id in s.requests && PastChecks(s, id)
    ensures WasExecuted(Final(s, actions), id)
  {
    var cleared := s.(owner := Cleared(id));
    var done := Step(cleared, Execute(Value(0)));
    assert done.executed[|s.executed|].id == id;
    FinalCons(cleared, Execute(Value(0)), []);
    actions := [Execute(Value(0))] + [];
    if s.owner == NotAbandoned(id) {
      FinalCons(s, CheckGeneration, actions);
      actions := [CheckGeneration] + actions;
    } else {
      assert s == cleared;
    }
  }

  lemma ExecutedIsOnRecord(s: State, id: RequestId)
    requires Inv(s) && id in s.requests && s.requests[id].execution.Some?
    ensures WasExecuted(s, id)
  {
    assert RequestOk(s, id, s.requests[id]);
  }

  /** Exactly when an abandoned request has been or can still be executed: it has been already, or when it was abandoned
      the owner had passed the abandonment check on it, and the generation check is passed or will be. */
  lemma AbandonedRunsIff(s: State, id: RequestId)
    requires Inv(s) && id in s.requests && s.requests[id].abandoned
    ensures (exists actions :: WasExecuted(Final(s, actions), id)) <==>
      s.requests[id].execution.Some? || PastChecks(s, id)
  {
    if s.requests[id].execution.Some? {
      ExecutedIsOnRecord(s, id);
      assert WasExecuted(Final(s, []), id);
    } else if PastChecks(s, id) {
      var actions := PastChecksMayRun(s, id);
    } else {
      forall actions
        ensures !WasExecuted(Final(s, actions), id)
      {
        BarredStaysBarred(s, actions, id);
      }
    }
  }

  /** What a timeout tells: the caller whose wait ran out has abandoned its request. */
  predicate TimeoutsAbandon(s: State) {
    forall id | id in s.requests :: s.requests[id].caller == Returned(AcquireTimeout) ==> s.requests[id].abandoned
  }

  lemma CallerKeepsTimeouts(s: State, a: Action)
    requires TimeoutsAbandon(s) && ByCaller(a) && CallerMay(s, a)
    ensures TimeoutsAbandon(CallerActs(s, a))
  {
  }

  lemma ServingKeepsTimeouts(s: State, a: Action)
    requires TimeoutsAbandon(s) && Serves(a) && OwnerMayServe(s, a)
    ensures TimeoutsAbandon(OwnerServes(s, a))
  {
  }

  lemma ResettingKeepsTimeouts(s: State, a: Action)
    requires TimeoutsAbandon(s) && !ByCaller(a) && !Serves(a) && OwnerMayReset(s, a)
    ensures TimeoutsAbandon(OwnerResets(s, a))
  {
  }

  lemma {:induction false} TimeoutsAlwaysAbandon(s: State, actions: seq<Action>)
    requires TimeoutsAbandon(s)
    ensures TimeoutsAbandon(Final(s, actions))
    decreases |actions|
  {
    if actions != [] {
      var a := actions[0];
      if Enabled(s, a) {
        if ByCaller(a) { CallerKeepsTimeouts(s, a); }
        else if Serves(a) { ServingKeepsTimeouts(s, a); }
        else { ResettingKeepsTimeouts(s, a); }
      }
      TimeoutsAlwaysAbandon(Step(s, a), actions[1..]);
    }
  }

  /** When an acquire timeout means "never executed, then or later": in every schedule, exactly if the request has not
      been executed and the owner is not past the checks on it. */
  lemma TimeoutMeansNeverExecutedIff(capacity: nat, actions: seq<Action>, id: RequestId)
    requires var s := Final(Init(capacity), actions);
      id in s.requests && s.requests[id].caller == Returned(AcquireTimeout)
    ensures var s := Final(Init(capacity), actions);
      (forall more :: !WasExecuted(Final(s, more), id)) <==> s.requests[id].execution.None? && !PastChecks(s, id)
  {
    InitInv(capacity);
    RunKeepsInv(Init(capacity), actions);
    TimeoutsAlwaysAbandon(Init(capacity), actions);
    AbandonedRunsIff(Final(Init(capacity), actions), id);
  }

  /** The first request, offered on a fresh connection. */
  function Queued(): State {
    Init(4).(connection := Some(0), enqueued := [0],
             requests := map[0 := Request(0, false, None, false, Waiting, Some(0), None)])
  }

  lemma QueuedIsReached(rest: seq<Action>)
    ensures Final(Init(4), [Connect] + ([Prepare(0)] + ([Offer(0)] + rest))) == Final(Queued(), rest)
  {
    var s1 := Step(Init(4), Connect);
    var s2 := Step(s1, Prepare(0));
    FinalCons(Init(4), Connect, [Prepare(0)] + ([Offer(0)] + rest));
    FinalCons(s1, Prepare(0), [Offer(0)] + rest);
    FinalCons(s2, Offer(0), rest);
    assert Step(s2, Offer(0)) == Queued();
  }

  lemma QueuedIsCleared(rest: seq<Action>)
    ensures Final(Queued(), [StartDrain] + ([Pop] + ([CheckAbandoned] + ([CheckGeneration] + rest))))
      == Final(Queued().(popped := 1, owner := Cleared(0)), rest)
  {
    FinalCons(Queued(), StartDrain, [Pop] + ([CheckAbandoned] + ([CheckGeneration] + rest)));
    FinalCons(Queued().(owner := Draining), Pop, [CheckAbandoned] + ([CheckGeneration] + rest));
    FinalCons(Queued().(popped := 1, owner := Popped(0)), CheckAbandoned, [CheckGeneration] + rest);
    FinalCons(Queued().(popped := 1, owner := NotAbandoned(0)), CheckGeneration, rest);
  }

  /** A timeout proves nothing: here the wait runs out after the executor has already run. */
  lemma TimedOutYetExecuted() returns (actions: seq<Action>)
    ensures var s := Final(Init(4), actions);
      0 in s.requests && s.requests[0].caller == Returned(AcquireTimeout) && WasExecuted(s, 0)
  {
    var late := [WaitRunsOut(0)] + ([Abandon(0)] + []);
    var drain := [StartDrain] + ([Pop] + ([CheckAbandoned] + ([CheckGeneration] + ([Execute(Value(1))] + late))));
    actions := [Connect] + ([Prepare(0)] + ([Offer(0)] + drain));
    QueuedIsReached(drain);
    QueuedIsCleared([Execute(Value(1))] + late);
    var s := Queued().(popped := 1, owner := Cleared(0));
    FinalCons(s, Execute(Value(1)), late);
    var t := Step(s, Execute(Value(1)));
    FinalCons(t, WaitRunsOut(0), [Abandon(0)] + []);
    FinalCons(Step(t, WaitRunsOut(0)), Abandon(0), []);
    var u := Step(Step(t, WaitRunsOut(0)), Abandon(0));
    assert u.executed[0].id == 0;
  }
}
